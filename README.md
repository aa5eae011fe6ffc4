# p2pdrop receiver: offer registry and selection loop

p2pdrop shares one file between two machines on a local network. `p2pdrop
send <file>` announces the file in a `hello` record to every peer it connects
to and serves its bytes on the `/p2pdrop/1.0.0/get` protocol. `p2pdrop recv`
collects those announcements in a registry, logs each with an index, reads
an index from standard input and fetches the chosen file into a file at the
path the sender announced (`os.Create(hl.File)`).

This project models the receiver's core as a state machine over the events
it reacts to:

- `go_int.dfy` (`GoInt`): the `int64`/`uint64` ranges and the `uint64(int64)` conversion.
- `hellos.dfy` (`Hellos`): the `hello` record, the part of it that JSON carries
  (the unexported `peer` never travels), the sender's and the receiver's own hellos.
- `decimal.dfy` (`Decimal`): `strconv.Atoi` as Go defines it on 64-bit platforms
  (optional sign, one or more ASCII digits, syntax and range errors, with
  `ParseUint`'s first-failure-wins order), the `%d` printing of an index, and
  the proof that a printed index parses back to itself.
- `recv_spec.dfy` (`RecvSpec`): the receiver's state (registry, log, the log
  lines hello handlers have yet to write, the session), one function per kind
  of step (`Register`, `PrintPending`, `Select`, gathered by `Step`; `Replay`
  for a run), the registry invariant `Consistent`, and the lemmas below.
- `recv.dfy` (`Recv`): class `Receiver`, whose fields are the `hellos` slice,
  the log, the pending log lines and the session, and whose methods update
  them in place, each proved to do what the corresponding function says.

The events are the program's own atomic steps: a hello handler up to its
`hellolk.Unlock()` (`Announce`: decode, drop an empty offer, stamp the peer,
append under the lock), the same handler's log line, which it writes after
`Unlock` (`PrintFound`), one read of the selection loop (`Line`), the end of
the fetch the loop started (`TransferDone`), and the end of standard input
(`EndOfInput`). Goroutine scheduling appears only as the order of the events
in a run. Because the log line is written outside the lock, two handlers
can log their indices in the opposite order to the one in which they
appended (`LogMayShowLaterIndexFirst`); what holds in every order is that the
logged and still-pending indices together are a permutation of 0..N-1. The
fetch itself (`h.NewStream`, `os.Create`, `io.Copy`) also runs outside the
lock, so hellos keep registering while it runs.

After the loop ends the command returns and the process exits. An index
outside the registry makes `hellos[n]` panic and the process crashes. Both
are modelled as a finished session that no later event changes.

The model follows the code's behaviour at three points:

- `hellos[n]` at main.go:269 has no bounds check, so a negative or too-large
  index panics.
- Each of the four exits of the fetch (the `break`s at main.go:276, 282, 289
  and 292) leaves the loop, so the first parsed index ends the loop whatever
  the fetch's outcome.
- `strconv.Atoi` accepts a leading `+` or `-`, so a line such as `-1` parses
  and then panics at the index.

## Model

| member | source | states |
|---|---|---|
| `GoInt.Int64ToUint64` | main.go:138 | `uint64(st.Size())` keeps a non-negative size and wraps a negative one by 2^64 |
| `Hellos.Encode` | main.go:94-100 | no contract of its own: what JSON carries, the four exported fields; described by `Hellos.Stamp` and `Hellos.EncodeStampRoundTrip` |
| `Hellos.Stamp` | main.go:242 | the stored entry carries exactly the decoded wire fields and the stream's remote peer |
| `Hellos.EncodeStampRoundTrip` | main.go:94-100 | `peer` is not on the wire: decoding what was encoded and stamping it gives the hello back with the receiving stream's peer |
| `Hellos.SenderHello` | main.go:134-139 | the sender's hello carries the user name, the host name and the served file verbatim, no peer, and the stat size (wrapped by 2^64 if negative) |
| `Hellos.ReceiverHello` | main.go:210-213 | the receiver's own hello has an empty `File` and zero `Size` |
| `Decimal.ScanDigits` | main.go:262 | the `ParseUint` digit loop never yields a value past `MaxUint64` nor below what was already read |
| `Decimal.ScanDigitsValue` | main.go:262 | scanning digits gives their decimal value, or a range error exactly when that value exceeds `MaxUint64` |
| `Decimal.ScanDigitsRejects` | main.go:262 | any non-digit makes the scan fail |
| `Decimal.Atoi` | main.go:262 | a parsed input line is always an `int64` |
| `Decimal.AtoiMeaning` | main.go:262 | `Atoi` succeeds exactly on an optional sign followed by digits whose value fits `int64`, returns that value, and reports a range error for one that does not fit |
| `Decimal.DigitsOf` | main.go:249 | `%d` of a natural number is a non-empty string of ASCII digits |
| `Decimal.DigitsOfValue` | main.go:249 | the digits `%d` prints have as value the number printed |
| `Decimal.FormatInt` | main.go:249 | `%d` prints an optional `-` and digits, the sign exactly for a negative number |
| `Decimal.AtoiFormatInt` | main.go:249 | an index printed with `%d` parses back with `Atoi` to the same index |
| `RecvSpec.Register` | main.go:233-247 | a hello handler up to `Unlock` never removes or rewrites an entry, adds at most one, and leaves the session alone; described further by `RecvSpec.OfferAppended`, `RecvSpec.EmptyOfferIgnored`, `RecvSpec.DecodeFailureRegistersNothing` and `RecvSpec.RegisterConsistent` |
| `RecvSpec.PrintPending` | main.go:249 | handler `k` writing its log line appends exactly `pending[k]` to the log, keeping every earlier line, and removes that one line from the pending ones (as multisets); the registry and the session stay as they were; a `k` with no pending line changes nothing |
| `RecvSpec.Select` | main.go:262-279 | an unparsable line changes only the log; a parsed one leaves the log alone and ends reading; the registry never changes; described further by `RecvSpec.BadLineSkipped` and `RecvSpec.ParsedLineEndsReading` |
| `RecvSpec.Step` | main.go:229-293 | no contract of its own: one event of the receiver; described by `RecvSpec.ReadingSteps`, `RecvSpec.StepAppendOnly`, `RecvSpec.StepLogGrows`, `RecvSpec.StepConsistent`, `RecvSpec.FetchEndsLoop` and `RecvSpec.FinishedIsFinal` |
| `RecvSpec.Replay` | main.go:260-293 | no contract of its own: a run of events; described by `RecvSpec.ReplayConcat`, `RecvSpec.ReplayConsistent`, `RecvSpec.ReplayAppendOnly`, `RecvSpec.ReplayLogGrows`, `RecvSpec.ReplayAnnouncements`, `RecvSpec.AtMostOneFetch` and `RecvSpec.IndicesFromStart` |
| `RecvSpec.Consistent` | main.go:229-249 | no contract of its own: the logged and pending indices together are a permutation of 0..N-1, every log line describes its entry, and every pending line is an offer describing its entry; preserved by `RecvSpec.StepConsistent` |
| `RecvSpec.InitialConsistent` | main.go:229-230 | the empty registry with an empty log satisfies the invariant |
| `RecvSpec.AppendOfferConsistent` | main.go:242-247 | appending an offer and holding its line as pending keeps the invariant |
| `RecvSpec.RegisterConsistent` | main.go:233-247 | every outcome of a hello handler up to `Unlock` keeps the invariant |
| `RecvSpec.MovePendingIndices` | main.go:249 | a handler's line moving into the log keeps the multiset of indices |
| `RecvSpec.PrintPendingConsistent` | main.go:249 | a handler writing its log line, in any order relative to other handlers, keeps the invariant |
| `RecvSpec.SelectConsistent` | main.go:262-279 | the input loop body keeps the invariant |
| `RecvSpec.StepConsistent` | main.go:229-293 | every event keeps the invariant |
| `RecvSpec.ReplayConsistent` | main.go:229-293 | every run keeps the invariant |
| `RecvSpec.IndicesFromStart` | main.go:244-249 | from an empty registry, whatever the interleaving, the log shows only indices below N, none twice, each line describing its entry; once no handler is pending, the shown indices are a permutation of 0..N-1 |
| `RecvSpec.LogMayShowLaterIndexFirst` | main.go:244-249 | two handlers that append as 0 then 1 can log 1 before 0 |
| `RecvSpec.EmptyOfferIgnored` | main.go:238-240 | a decoded hello with empty `File` changes neither registry, log nor session |
| `RecvSpec.ReceiverHandshakeIgnored` | main.go:210-240 | a receiver's own hello, once decoded by another receiver, registers nothing |
| `RecvSpec.DecodeFailureRegistersNothing` | main.go:234-237 | a failed decode adds no entry, no pending line, and leaves the session alone |
| `RecvSpec.OfferAppended` | main.go:242-247 | a hello with a file is appended at index = old length, earlier entries are kept, its peer is the stream's remote peer, and the handler holds the line for that index |
| `RecvSpec.SenderOfferAppended` | main.go:134-139 | a sender's hello is registered with its user name, host, file name and stat size, attributed to the peer it came from |
| `RecvSpec.BadLineSkipped` | main.go:262-266 | a line `Atoi` rejects is logged and changes neither registry nor session |
| `RecvSpec.ParsedLineEndsReading` | main.go:262-279 | a parsed index ends the reading: in range it starts fetching that entry from its peer into a file at exactly its `File` path; out of range (negative or too large) the process panics |
| `RecvSpec.FetchEndsLoop` | main.go:268-292 | during a fetch no line is read, hellos still register, and the fetch's end, whatever its status, ends the loop |
| `RecvSpec.ReadingSteps` | main.go:261-294 | while the loop is reading, a line is handled by `Select`, and the end of input finishes the session with nothing fetched |
| `RecvSpec.FinishedIsFinal` | main.go:292-294 | once the loop is over no event changes anything |
| `RecvSpec.StepAppendOnly` | main.go:231-250 | no event removes or rewrites an entry, and none adds more than one |
| `RecvSpec.ReplayAppendOnly` | main.go:229-250 | over any run the registry only grows at its end; earlier entries keep index and contents |
| `RecvSpec.StepLogGrows` | main.go:235-264 | no event removes or rewrites a log line |
| `RecvSpec.ReplayLogGrows` | main.go:235-264 | over any run the log only grows at its end; every line once shown keeps its place |
| `RecvSpec.ReplayAnnouncements` | main.go:231-250 | while the loop runs, a run of announcements appends exactly their non-empty offers, in the order they take the lock |
| `RecvSpec.FetchedStays` | main.go:272-292 | once fetch `f` has started, the run ends with that same `f` in progress or done |
| `RecvSpec.AtMostOneFetch` | main.go:261-293 | a run starts at most one fetch (counting every step into fetching something new), none once the loop has stopped reading, and a run that started one ends with that very fetch in progress or done |
| `RecvSpec.ReplayConcat` | main.go:260-293 | replaying two runs one after the other is replaying their concatenation |
| `RecvSpec.FetchingEndsWithIt` | main.go:272-292 | any point of a run at which fetch `f` is in progress is followed by an end with `f` in progress or done |
| `RecvSpec.PrintedIndexSelectsEntry` | main.go:249-273 | typing back an index from a log line fetches the entry that line describes, from its peer |
| `RecvSpec.AnnounceThenSelect` | main.go:231-292 | an offer announced while reading is logged with the next index; typing that index fetches its file from the announcing peer, and the fetch's end ends the run |
| `Recv.Receiver.constructor` | main.go:229-230 | the registry and log start empty and the loop reading |
| `Recv.Receiver.HandleHello` | main.go:231-247 | the handler up to `Unlock` updates the shared state as `Register` says and keeps the invariant |
| `Recv.Receiver.Append` | main.go:244-247 | under the lock, the index is the old length and the entry is appended, nothing else changing |
| `Recv.Receiver.LogFound` | main.go:249 | a handler's log line updates the state as `PrintPending` says and keeps the invariant |
| `Recv.Receiver.HandleLine` | main.go:262-279 | one loop pass updates the state as `Select` says and keeps the invariant |
| `Recv.Receiver.EndFetch` | main.go:273-292 | the fetch's end, whatever its status, finishes the session and changes nothing else |
| `Recv.Receiver.Handle` | main.go:229-293 | any event updates the state as `Step` says and keeps the invariant |
| `Recv.Receiver.Run` | main.go:260-294 | the loop, with hellos arriving between and during its steps, ends in the state `Replay` gives and keeps the invariant |

## Left out

- Host construction, key generation, peerstore, swarm and mDNS discovery (main.go:29-83): libp2p plumbing outside the receiver's logic.
- The connection handlers that open a hello stream and JSON-encode the local hello (main.go:140-152, 215-227): network I/O and `encoding/json`; the model takes the decoded hello (or a decode failure) as an event, and `Encode` stands for what reaches the wire.
- The sender's hello handler (main.go:154-163) only writes a log line; the sender keeps no registry.
- The sender's `/get` handler and the receiver's stream open, file creation and `io.Copy` (main.go:164-176, 273-290): file and stream I/O; their outcome arrives as the status of the `TransferDone` event. The `fetching ...`, error and `Success!` lines printed to standard output are not modelled, nor is the deferred close of the output file.
- `sync.Mutex` and goroutine scheduling: each locked region is one atomic step and the interleaving is the order of events.
- The terminal UI (its bounded log display, the data lines, the once-a-second redraw) and `humanize` size formatting (main.go:130-132, 178-180, 206-208, 249, 252-258): presentation only; the log keeps every line, and a `Found` entry keeps the raw size.
- `os.Hostname`, `user.Current`, `os.Stat` and the `cli` wiring (main.go:85-92, 113-128, 196-204): environment lookups; their results are parameters.
- `bufio.Scanner`'s line splitting and its maximum token size: input lines arrive already split, and a read error is the same event as end of input.
- The text of decode errors: a failed decode is logged as one kind of line without its message.
- Strings: Go strings are byte sequences, while the model uses Dafny `string`, a sequence of characters; names, file paths and input lines are compared and stored the same way, and `Atoi` only looks at ASCII signs and digits, so nothing in the model depends on the encoding.
