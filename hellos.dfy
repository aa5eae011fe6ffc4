/** The `hello` record that peers exchange on the hello protocol, and the
    two hellos a process announces about itself. */
module Hellos {
  import opened GoInt

  /** A libp2p peer identifier; Go's `peer.ID` is a string type whose zero value is "". */
  type PeerId = string

  const NoPeer: PeerId := ""

  /** A hello as it is kept by the receiver: the four exported fields that
      travel on the wire, plus the unexported `peer`, which JSON never sees. */
  datatype Hello = Hello(name: string, hostname: string, file: string, size: Uint64, peer: PeerId)

  /** The part of a hello that the JSON encoder writes and the decoder fills in. */
  datatype WireHello = WireHello(name: string, hostname: string, file: string, size: Uint64)

  /** The outcome of decoding one hello from an inbound stream. */
  datatype DecodeResult = DecodeFailed | Decoded(hello: WireHello)

  /** What `json.Encoder.Encode` puts on the wire: the unexported `peer` is dropped. */
  function Encode(h: Hello): WireHello {
    WireHello(h.name, h.hostname, h.file, h.size)
  }

  /** A decoded hello, its `peer` set from the stream's remote peer. */
  function Stamp(w: WireHello, remote: PeerId): (h: Hello)
    ensures Encode(h) == w && h.peer == remote
  {
    Hello(w.name, w.hostname, w.file, w.size, remote)
  }

  /** The hello the sender builds about the file it serves. */
  function SenderHello(username: string, hostname: string, finame: string, statSize: int): (h: Hello)
    requires IsInt64(statSize)
    ensures h.name == username && h.hostname == hostname
    ensures h.file == finame && h.peer == NoPeer
    ensures statSize >= 0 ==> h.size == statSize
    ensures statSize < 0 ==> h.size == statSize + MaxUint64 + 1
  {
    Hello(username, hostname, finame, Int64ToUint64(statSize), NoPeer)
  }

  /** The hello the receiver builds about itself: it offers no file. */
  function ReceiverHello(username: string, hostname: string): (h: Hello)
    ensures h.file == "" && h.size == 0 && h.peer == NoPeer
  {
    Hello(username, hostname, "", 0, NoPeer)
  }

  /** Stamping what was encoded gives back the hello, with the peer of the
      stream it arrived on in place of whatever the sender had there. */
  lemma EncodeStampRoundTrip(h: Hello, remote: PeerId)
    ensures Stamp(Encode(h), remote) == h.(peer := remote)
  {
  }
}
