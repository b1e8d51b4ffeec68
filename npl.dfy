/** The node-party-line (NPL) channel: the peer-broadcast descriptor shared with
    the UNL nodes. The host writes each inbound message as two datagrams, the
    sender's public key and then the payload; the channel pairs them back up
    through a single identity slot. */
module Npl {
  import opened Common

  /** One inbound NPL message, as handed to the consumer's callback. */
  datatype PeerMessage = PeerMessage(publicKey: string, data: Bytes)

  /** The handler's `publicKey` slot is truthy: set, and not the empty string. */
  predicate HoldsIdentity(slot: Option<string>) {
    slot.Some? && slot.value != ""
  }

  /** The messages an optional emission contributes. */
  function Emitted(m: Option<PeerMessage>): seq<PeerMessage> {
    if m.Some? then [m.value] else []
  }

  /** The data handler on one chunk: the new slot and the message emitted, if any.
      With no truthy identity held, the chunk's text becomes the identity; otherwise
      the chunk is the payload of the held identity and the slot is cleared. */
  function Step(slot: Option<string>, chunk: Bytes): (r: (Option<string>, Option<PeerMessage>))
    ensures r.1.Some? <==> HoldsIdentity(slot)
    ensures r.1.Some? ==> r.0 == None && r.1.value.publicKey == slot.value && r.1.value.data == chunk
    ensures r.1.None? ==> r.0 == Some(Text(chunk))
  {
    if !HoldsIdentity(slot) then (Some(Text(chunk)), None)
    else (None, Some(PeerMessage(slot.value, chunk)))
  }

  /** The data handler run over `chunks` in arrival order from `slot`: the messages
      it emits, in order, and the slot it leaves behind. */
  function Pairing(slot: Option<string>, chunks: seq<Bytes>): (r: (seq<PeerMessage>, Option<string>))
    ensures 2 * |r.0| <= |chunks| + (if HoldsIdentity(slot) then 1 else 0)
    decreases |chunks|
  {
    if chunks == [] then ([], slot)
    else
      var step := Step(slot, chunks[0]);
      var after := Pairing(step.0, chunks[1..]);
      (Emitted(step.1) + after.0, after.1)
  }

  /** The datagrams the host writes for a run of (public key, payload) pairs. */
  function Frames(wire: seq<(Bytes, Bytes)>): (chunks: seq<Bytes>)
    ensures |chunks| == 2 * |wire|
  {
    if wire == [] then [] else [wire[0].0, wire[0].1] + Frames(wire[1..])
  }

  /** The messages a consumer should see for those pairs. */
  function Decoded(wire: seq<(Bytes, Bytes)>): (msgs: seq<PeerMessage>)
    ensures |msgs| == |wire|
  {
    seq(|wire|, i requires 0 <= i < |wire| => PeerMessage(Text(wire[i].0), wire[i].1))
  }

  /** The messages of a stream of non-empty chunks taken two at a time. */
  function Pairs(chunks: seq<Bytes>): (msgs: seq<PeerMessage>)
    ensures |msgs| == |chunks| / 2
  {
    seq(|chunks| / 2, k requires 0 <= k < |chunks| / 2 => PeerMessage(Text(chunks[2 * k]), chunks[2 * k + 1]))
  }

  /** Feeding chunks in two batches is feeding them at once: the slot carries the
      pairing state from one data event to the next. */
  lemma {:induction false} PairingSplit(slot: Option<string>, xs: seq<Bytes>, ys: seq<Bytes>)
    ensures Pairing(slot, xs + ys).0 == Pairing(slot, xs).0 + Pairing(Pairing(slot, xs).1, ys).0
    ensures Pairing(slot, xs + ys).1 == Pairing(Pairing(slot, xs).1, ys).1
    decreases |xs|
  {
    if xs == [] {
      assert xs + ys == ys;
    } else {
      PairingSplit(Step(slot, xs[0]).0, xs[1..], ys);
      assert (xs + ys)[1..] == xs[1..] + ys;
      assert (xs + ys)[0] == xs[0];
    }
  }

  /** One more chunk is one more step of the handler. */
  lemma PairingSnoc(slot: Option<string>, chunks: seq<Bytes>, c: Bytes)
    ensures Pairing(slot, chunks + [c]).0 == Pairing(slot, chunks).0 + Emitted(Step(Pairing(slot, chunks).1, c).1)
    ensures Pairing(slot, chunks + [c]).1 == Step(Pairing(slot, chunks).1, c).0
  {
    PairingSplit(slot, chunks, [c]);
    var mid := Pairing(slot, chunks).1;
    assert Pairing(mid, [c]).0 == Emitted(Step(mid, c).1) + [] by {
      assert [c][1..] == [];
    }
  }

  /** The handler never emits a message whose identity is empty. */
  lemma {:induction false} NoEmptyIdentity(slot: Option<string>, chunks: seq<Bytes>)
    ensures forall m :: m in Pairing(slot, chunks).0 ==> m.publicKey != ""
    decreases |chunks|
  {
    if chunks != [] {
      NoEmptyIdentity(Step(slot, chunks[0]).0, chunks[1..]);
    }
  }

  /** An empty chunk arriving while an identity is awaited is stored as "", which is
      falsy: the machine still awaits an identity, and the following chunks pair up
      exactly as if the empty chunk had never come. */
  lemma EmptyIdentityIgnored(slot: Option<string>, rest: seq<Bytes>)
    requires !HoldsIdentity(slot)
    ensures Pairing(slot, [[]]).0 == [] && Pairing(slot, [[]]).1 == Some("")
    ensures rest != [] ==> Pairing(slot, [[]] + rest).0 == Pairing(None, rest).0
    ensures rest != [] ==> Pairing(slot, [[]] + rest).1 == Pairing(None, rest).1
  {
    var empty: Bytes := [];
    assert [empty][1..] == [];
    assert Text(empty) == "";
    if rest != [] {
      assert ([empty] + rest)[1..] == rest;
      assert ([empty] + rest)[0] == empty;
    }
  }

  /** A non-empty identity followed by a payload, from an empty slot, emits that
      one message and leaves the slot empty for the rest of the stream. */
  lemma PairingTwo(id: Bytes, payload: Bytes, rest: seq<Bytes>)
    requires id != []
    ensures Pairing(None, [id, payload] + rest).0 == [PeerMessage(Text(id), payload)] + Pairing(None, rest).0
    ensures Pairing(None, [id, payload] + rest).1 == Pairing(None, rest).1
  {
    var chunks := [id, payload] + rest;
    assert |Text(id)| == |id|;
    var slot := Some(Text(id));
    assert HoldsIdentity(slot);
    assert chunks[0] == id && chunks[1..] == [payload] + rest;
    assert ([payload] + rest)[0] == payload && ([payload] + rest)[1..] == rest;
    assert Pairing(slot, [payload] + rest).0 == [PeerMessage(Text(id), payload)] + Pairing(None, rest).0;
  }

  /** Round trip: the host's datagrams for pairs with non-empty public keys are
      paired back into exactly those messages, and the slot ends empty. */
  lemma {:induction false} PairingRoundTrip(wire: seq<(Bytes, Bytes)>)
    requires forall i :: 0 <= i < |wire| ==> wire[i].0 != []
    ensures Pairing(None, Frames(wire)).0 == Decoded(wire)
    ensures Pairing(None, Frames(wire)).1 == None
  {
    if wire != [] {
      var id, payload := wire[0].0, wire[0].1;
      var rest := Frames(wire[1..]);
      PairingRoundTrip(wire[1..]);
      assert Frames(wire) == [id, payload] + rest;
      PairingTwo(id, payload, rest);
      assert Decoded(wire) == [PeerMessage(Text(id), payload)] + Decoded(wire[1..]);
    }
  }

  /** For a stream of non-empty chunks the handler alternates identity and payload:
      chunks 2k and 2k+1 form the k-th message, payload bytes unchanged, so n chunks
      give n/2 messages; an odd last chunk is left waiting as an identity. */
  lemma {:induction false} PairingAlternates(chunks: seq<Bytes>)
    requires forall i :: 0 <= i < |chunks| ==> chunks[i] != []
    ensures Pairing(None, chunks).0 == Pairs(chunks)
    ensures Pairing(None, chunks).1 == if |chunks| % 2 == 1 then Some(Text(chunks[|chunks| - 1])) else None
  {
    if |chunks| == 1 {
      assert chunks[1..] == [];
    } else if |chunks| >= 2 {
      var a, b, rest := chunks[0], chunks[1], chunks[2..];
      assert chunks == [a, b] + rest;
      PairingTwo(a, b, rest);
      PairingAlternates(rest);
      assert Pairs(chunks) == [PeerMessage(Text(a), b)] + Pairs(rest) by {
        forall k | 1 <= k < |chunks| / 2
          ensures Pairs(chunks)[k] == Pairs(rest)[k - 1]
        {
          assert chunks[2 * k] == rest[2 * (k - 1)];
          assert chunks[2 * k + 1] == rest[2 * (k - 1) + 1];
        }
      }
      if |rest| > 0 {
        assert chunks[|chunks| - 1] == rest[|rest| - 1];
      }
    }
  }

  /** The stream a, h, b, w with non-empty public keys a and b gives (a, h) then (b, w). */
  lemma PairingExample(a: Bytes, h: Bytes, b: Bytes, w: Bytes)
    requires a != [] && b != []
    ensures Pairing(None, [a, h, b, w]).0 == [PeerMessage(Text(a), h), PeerMessage(Text(b), w)]
  {
    var wire := [(a, h), (b, w)];
    PairingRoundTrip(wire);
    assert Frames(wire) == [a, h, b, w] by {
      assert wire[1..] == [(b, w)];
      assert Frames(wire[1..]) == [b, w] by {
        assert wire[1..][1..] == [];
      }
    }
  }

  /** The NPL channel over one descriptor. `consumed` stands for a live read stream
      (`#readStream` not null), `pending` for the data handler's `publicKey` slot,
      and `written` for the datagrams written to the descriptor so far. */
  class NplChannel {
    const fd: int
    var consumed: bool
    var pending: Option<string>
    var written: seq<Bytes>

    /** No read stream, no handler and so no held identity. */
    ghost predicate Valid()
      reads this
    {
      !consumed ==> pending == None
    }

    constructor (fd: int)
      ensures Valid()
      ensures this.fd == fd && !consumed && pending == None && written == []
    {
      this.fd := fd;
      consumed := false;
      pending := None;
      written := [];
    }

    /** Attaches the read stream and a data handler with an empty identity slot;
        a second call before `Close` throws "already consumed" and changes nothing. */
    method Consume() returns (r: Outcome<Error>)
      requires Valid()
      modifies this`consumed, this`pending
      ensures Valid()
      ensures old(consumed) ==> r == Fail(AlreadyConsumed) && consumed && pending == old(pending)
      ensures !old(consumed) ==> r == Pass && consumed && pending == None
    {
      if consumed {
        return Fail(AlreadyConsumed);
      }
      consumed := true;
      pending := None;
      r := Pass;
    }

    /** Runs the data handler over chunks read in order; returns the messages passed
        to the callback, in order. */
    method Feed(chunks: seq<Bytes>) returns (emitted: seq<PeerMessage>)
      requires Valid() && consumed
      modifies this`pending
      ensures Valid()
      ensures emitted == Pairing(old(pending), chunks).0 && pending == Pairing(old(pending), chunks).1
    {
      emitted := [];
      var i := 0;
      while i < |chunks|
        invariant 0 <= i <= |chunks|
        invariant emitted == Pairing(old(pending), chunks[..i]).0
        invariant pending == Pairing(old(pending), chunks[..i]).1
      {
        assert chunks[..i + 1] == chunks[..i] + [chunks[i]];
        PairingSnoc(old(pending), chunks[..i], chunks[i]);
        if !HoldsIdentity(pending) {
          pending := Some(Text(chunks[i]));
        } else {
          emitted := emitted + [PeerMessage(pending.value, chunks[i])];
          pending := None;
        }
        i := i + 1;
      }
      assert chunks[..i] == chunks;
    }

    /** Writes one datagram; a buffer over 128 KiB throws and writes nothing. */
    method Send(msg: Bytes) returns (r: Outcome<Error>)
      modifies this`written
      ensures !FitsPacket(msg) ==> r == Fail(MessageTooLarge) && written == old(written)
      ensures FitsPacket(msg) ==> r == Pass && written == old(written) + [msg]
    {
      if |msg| > MAX_SEQ_PACKET_SIZE {
        return Fail(MessageTooLarge);
      }
      written := written + [msg];
      r := Pass;
    }

    /** Destroys the read stream if there is one; otherwise does nothing. */
    method Close()
      requires Valid()
      modifies this`consumed, this`pending
      ensures Valid() && !consumed && pending == None
      ensures !old(consumed) ==> consumed == old(consumed) && pending == old(pending)
    {
      if consumed {
        consumed := false;
        pending := None;
      }
    }
  }
}
