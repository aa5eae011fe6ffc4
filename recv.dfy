/** The `recv` command's shared state and the code that updates it in place. */
module Recv {
  import opened Hellos
  import opened Decimal
  import opened RecvSpec

  /** The `hellos` slice guarded by `hellolk`, the on-screen log, the log
      lines hello handlers have yet to write, and where the selection loop
      stands. */
  class Receiver {
    var hellos: seq<Hello>
    var log: seq<LogEntry>
    var pending: seq<LogEntry>
    var session: Session

    function Snapshot(): State
      reads this
    {
      State(hellos, log, pending, session)
    }

    ghost predicate Valid()
      reads this
    {
      Consistent(Snapshot())
    }

    constructor ()
      ensures Valid() && Snapshot() == Initial
    {
      hellos, log, pending, session := [], [], [], Reading;
      InitialConsistent();
    }

    /** A hello stream handler up to `Unlock`: decode, drop an empty offer,
        stamp the remote peer, and append under the lock. */
    method HandleHello(d: DecodeResult, remote: PeerId)
      requires Valid()
      modifies this
      ensures Valid()
      ensures Snapshot() == Register(old(Snapshot()), d, remote)
    {
      ghost var next := Register(Snapshot(), d, remote);
      RegisterConsistent(Snapshot(), d, remote);
      if d.DecodeFailed? {
        log := log + [HelloReadError];
        assert Snapshot() == next;
        return;
      }
      var otherhello := d.hello;
      if otherhello.file == "" {
        return;
      }
      var n := Append(Stamp(otherhello, remote));
      pending := pending + [Found(n, otherhello)];
      assert Snapshot() == next;
    }

    /** The section under `hellolk`: the entry's index is the length before
        the append. */
    method Append(entry: Hello) returns (n: nat)
      modifies this
      ensures n == |old(hellos)| && hellos == old(hellos) + [entry]
      ensures log == old(log) && pending == old(pending) && session == old(session)
    {
      n := |hellos|;
      hellos := hellos + [entry];
    }

    /** The last statement of the hello handler holding `pending[k]`, after
        `Unlock`: it adds its line to the log. */
    method LogFound(k: nat)
      requires Valid()
      modifies this
      ensures Valid()
      ensures Snapshot() == PrintPending(old(Snapshot()), k)
    {
      ghost var next := PrintPending(Snapshot(), k);
      PrintPendingConsistent(Snapshot(), k);
      if k < |pending| {
        log := log + [pending[k]];
        pending := pending[..k] + pending[k + 1..];
      }
      assert Snapshot() == next;
    }

    /** One read of the selection loop, up to the start of the fetch. */
    method HandleLine(line: string)
      requires Valid()
      modifies this
      ensures Valid()
      ensures Snapshot() == Select(old(Snapshot()), line)
    {
      SelectConsistent(Snapshot(), line);
      var parsed := Atoi(line);
      if parsed.Err? {
        log := log + [InputError(line, parsed.error)];
        return;
      }
      var n := parsed.value;
      if !(0 <= n < |hellos|) {
        session := Finished(IndexPanic(n, |hellos|));
        return;
      }
      var hl := hellos[n];
      session := Fetching(Fetch(n, hl.peer, hl.file));
    }

    /** The fetch in progress ends, successfully or not, and with it the loop. */
    method EndFetch(status: TransferStatus)
      requires Valid() && session.Fetching?
      modifies this
      ensures Valid()
      ensures session == Finished(Fetched(old(session).fetch, status))
      ensures hellos == old(hellos) && log == old(log) && pending == old(pending)
    {
      session := Finished(Fetched(session.fetch, status));
    }

    /** Whatever happens next, while the process is still running. */
    method Handle(e: Event)
      requires Valid() && !session.Finished?
      modifies this
      ensures Valid()
      ensures Snapshot() == Step(old(Snapshot()), e)
    {
      match e {
        case Announce(d, remote) =>
          HandleHello(d, remote);
        case PrintFound(k) =>
          LogFound(k);
        case Line(text) =>
          if session == Reading {
            HandleLine(text);
          }
        case EndOfInput =>
          if session == Reading {
            session := Finished(InputClosed);
          }
        case TransferDone(status) =>
          if session.Fetching? {
            EndFetch(status);
          }
      }
    }

    /** The `for scan.Scan()` loop, with hello handlers running between its
        steps; it stops at the end of input or once a parsed index has been
        acted on. */
    method Run(events: seq<Event>)
      requires Valid()
      modifies this
      ensures Valid()
      ensures Snapshot() == Replay(old(Snapshot()), events)
    {
      var i := 0;
      while i < |events| && !session.Finished?
        invariant 0 <= i <= |events|
        invariant Valid()
        invariant Replay(Snapshot(), events[i..]) == Replay(old(Snapshot()), events)
        decreases |events| - i
      {
        assert events[i..][1..] == events[i + 1..];
        Handle(events[i]);
        i := i + 1;
      }
      if i < |events| {
        FinishedIsFinal(Snapshot(), events[i..]);
      } else {
        assert events[i..] == [];
      }
    }
  }
}
