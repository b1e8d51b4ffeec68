/** Shared vocabulary of the contract binding: bytes, failure-carrying results,
    the error kinds the channels raise, and the constants every channel uses. */
module Common {

  newtype byte = x: int | 0 <= x < 256

  /** A Node.js `Buffer`: a finite run of bytes. */
  type Bytes = seq<byte>

  datatype Option<+T> = None | Some(value: T)

  datatype Result<+T, +E> = Ok(value: T) | Err(error: E)

  /** The completion of an operation that returns nothing: it passed or threw `error`. */
  datatype Outcome<+E> = Pass | Fail(error: E)

  /** The errors the channels and collections throw. */
  datatype Error =
    | AlreadyConsumed     // "... channel already consumed."
    | MessageTooLarge     // "... exceeds max size 131072"
    | NullContent         // "Cannot serialize null content."
    | LengthOutOfRange    // the RangeError of `writeUInt32BE` on a length above 2^32 - 1
    | ReadonlyMode        // "NPL messages not available in readonly mode."
    | ChannelUnavailable  // "NPL channel not available."

  /** Largest message written to the control or NPL descriptor (128 KiB). */
  const MAX_SEQ_PACKET_SIZE: nat := 128 * 1024

  /** The `type` of the only control message this layer builds. */
  const PEER_CHANGESET: string := "peer_changeset"

  /** The client protocol tag that sends strings and objects as raw bytes; every
      other tag, "json" included, sends them JSON-encoded. */
  const PROTOCOL_BSON: string := "bson"

  /** Whether a buffer may be written to a sequenced-packet descriptor. */
  predicate FitsPacket(buf: Bytes) {
    |buf| <= MAX_SEQ_PACKET_SIZE
  }

  /** `buf.toString()` for the texts this layer decodes (public keys, which are
      ASCII): one character per byte. */
  function Text(buf: Bytes): (s: string)
    ensures |s| == |buf|
    ensures forall i :: 0 <= i < |buf| ==> s[i] as int == buf[i] as int
  {
    seq(|buf|, i requires 0 <= i < |buf| => (buf[i] as int) as char)
  }

  /** The keys of an object's entries, in entry order. */
  function KeysOf<V>(entries: seq<(string, V)>): (ks: seq<string>)
    ensures |ks| == |entries|
  {
    seq(|entries|, i requires 0 <= i < |entries| => entries[i].0)
  }

  /** No element occurs twice (the keys of a JavaScript object). */
  predicate Distinct<T(==)>(s: seq<T>) {
    forall i, j :: 0 <= i < j < |s| ==> s[i] != s[j]
  }

  /** A sequence without repeats has as many elements as its set. */
  lemma {:induction false} DistinctCardinality<T>(s: seq<T>)
    requires Distinct(s)
    ensures |set x | x in s| == |s|
  {
    if s != [] {
      var t := s[1..];
      assert Distinct(t) by {
        forall i, j | 0 <= i < j < |t| ensures t[i] != t[j] {
          assert t[i] == s[i + 1] && t[j] == s[j + 1];
        }
      }
      DistinctCardinality(t);
      assert (set x | x in s) == {s[0]} + (set x | x in t) by {
        assert s == [s[0]] + t;
      }
      assert s[0] !in t by {
        forall k | 0 <= k < |t| ensures t[k] != s[0] {
          assert t[k] == s[k + 1];
        }
      }
    }
  }
}
