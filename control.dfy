/** The control channel: structured messages exchanged with the host over one
    sequenced-packet descriptor, one message per read and per write. */
module Control {
  import opened Common

  /** `consumed` stands for a live read stream (`#readStream` not null) and
      `written` for the datagrams written to the descriptor so far. */
  class ControlChannel {
    const fd: int
    var consumed: bool
    var written: seq<Bytes>

    constructor (fd: int)
      ensures this.fd == fd && !consumed && written == []
    {
      this.fd := fd;
      consumed := false;
      written := [];
    }

    /** Attaches the read stream; a second call before `Close` throws
        "already consumed" and changes nothing. */
    method Consume() returns (r: Outcome<Error>)
      modifies this`consumed
      ensures old(consumed) ==> r == Fail(AlreadyConsumed)
      ensures !old(consumed) ==> r == Pass
      ensures consumed
    {
      if consumed {
        return Fail(AlreadyConsumed);
      }
      consumed := true;
      r := Pass;
    }

    /** Runs the data handler over chunks read in order; returns the buffers passed
        to the callback: each chunk exactly once, unchanged, in arrival order. */
    method Feed(chunks: seq<Bytes>) returns (delivered: seq<Bytes>)
      requires consumed
      ensures delivered == chunks
    {
      delivered := [];
      for i := 0 to |chunks|
        invariant delivered == chunks[..i]
      {
        delivered := delivered + [chunks[i]];
      }
      assert chunks[..|chunks|] == chunks;
    }

    /** Serialises `obj` with `stringify` (the JSON text of `obj`, as bytes) and
        writes it as one datagram; a serialisation over 128 KiB throws and
        writes nothing. */
    method Send<T>(obj: T, stringify: T -> Bytes) returns (r: Outcome<Error>)
      modifies this`written
      ensures !FitsPacket(stringify(obj)) ==> r == Fail(MessageTooLarge) && written == old(written)
      ensures FitsPacket(stringify(obj)) ==> r == Pass && written == old(written) + [stringify(obj)]
    {
      var buf := stringify(obj);
      if |buf| > MAX_SEQ_PACKET_SIZE {
        return Fail(MessageTooLarge);
      }
      written := written + [buf];
      r := Pass;
    }

    /** Destroys the read stream if there is one; otherwise does nothing. After it
        `Consume` is accepted again. */
    method Close()
      modifies this`consumed
      ensures !consumed
    {
      if consumed {
        consumed := false;
      }
    }
  }
}
