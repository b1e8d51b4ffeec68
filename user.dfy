/** Users of the contract: one output descriptor per user, written as a stream of
    length-prefixed frames, and (offset, size) ranges of a shared input file. */
module User {
  import opened Common

  /** Values up to here fit the 4-byte length header. */
  const UINT32_LIMIT: nat := 0x1_0000_0000

  /** `writeUInt32BE`: the four bytes of `n`, most significant first. */
  function EncodeUint32BE(n: nat): (h: Bytes)
    requires n < UINT32_LIMIT
    ensures |h| == 4
  {
    var q2 := n / 256 / 256;
    [(q2 / 256) as byte, (q2 % 256) as byte, (n / 256 % 256) as byte, (n % 256) as byte]
  }

  /** The number a 4-byte big-endian header stands for. */
  function DecodeUint32BE(h: Bytes): (n: nat)
    requires |h| == 4
    ensures n < UINT32_LIMIT
  {
    ((h[0] as nat * 256 + h[1] as nat) * 256 + h[2] as nat) * 256 + h[3] as nat
  }

  lemma DivModByte(q: nat, r: nat)
    requires r < 256
    ensures (q * 256 + r) / 256 == q && (q * 256 + r) % 256 == r
  {
  }

  /** Decoding a header gives back the length it was written for. */
  lemma DecodeEncode(n: nat)
    requires n < UINT32_LIMIT
    ensures DecodeUint32BE(EncodeUint32BE(n)) == n
  {
    var q1, q2 := n / 256, n / 256 / 256;
    assert n == q1 * 256 + n % 256;
    assert q1 == q2 * 256 + q1 % 256;
    assert q2 == (q2 / 256) * 256 + q2 % 256;
  }

  /** Every 4-byte header is the header of the length it decodes to. */
  lemma EncodeDecode(h: Bytes)
    requires |h| == 4
    ensures EncodeUint32BE(DecodeUint32BE(h)) == h
  {
    var a := h[0] as nat * 256 + h[1] as nat;
    var b := a * 256 + h[2] as nat;
    var n := b * 256 + h[3] as nat;
    DivModByte(b, h[3] as nat);
    DivModByte(a, h[2] as nat);
    DivModByte(h[0] as nat, h[1] as nat);
  }

  /** The bytes `UserChannel.send` writes for a serialised payload: the 4-byte
      big-endian length, then the payload; a length that does not fit 32 bits makes
      `writeUInt32BE` throw. */
  function Frame(payload: Bytes): (r: Result<Bytes, Error>)
    ensures r.Err? <==> |payload| >= UINT32_LIMIT
    ensures r.Err? ==> r.error == LengthOutOfRange
    ensures r.Ok? ==> |r.value| == 4 + |payload| && r.value[4..] == payload
  {
    if |payload| >= UINT32_LIMIT then Err(LengthOutOfRange)
    else Ok(EncodeUint32BE(|payload|) + payload)
  }

  /** What the host reads back from a user output stream: the payloads of its
      frames, in order, or None when the stream does not split into whole frames. */
  function Deframe(stream: Bytes): Option<seq<Bytes>>
    decreases |stream|
  {
    if stream == [] then Some([])
    else if |stream| < 4 then None
    else
      var n := DecodeUint32BE(stream[..4]);
      if |stream| - 4 < n then None
      else
        var rest := Deframe(stream[4 + n..]);
        if rest.None? then None else Some([stream[4..4 + n]] + rest.value)
  }

  /** Round trip of one frame: reading the header and then that many bytes gives
      back the payload. */
  lemma FrameRoundTrip(payload: Bytes)
    requires |payload| < UINT32_LIMIT
    ensures Frame(payload).Ok?
    ensures DecodeUint32BE(Frame(payload).value[..4]) == |payload|
    ensures Deframe(Frame(payload).value).Some? && Deframe(Frame(payload).value).value == [payload]
  {
    var f := Frame(payload).value;
    DecodeEncode(|payload|);
    assert f[..4] == EncodeUint32BE(|payload|);
    assert f[4 + |payload|..] == [];
    assert f[4..4 + |payload|] == payload;
  }

  /** A stream that starts with a header announcing `|body|` bytes and then
      `body` reads back as `body` followed by what the rest reads back as. */
  lemma DeframeCons(header: Bytes, body: Bytes, tail: Bytes)
    requires |header| == 4 && DecodeUint32BE(header) == |body|
    ensures Deframe(header + body + tail) ==
              if Deframe(tail).None? then None else Some([body] + Deframe(tail).value)
  {
    var s := header + body + tail;
    assert s[..4] == header;
    assert s[4..4 + |body|] == body;
    assert s[4 + |body|..] == tail;
  }

  /** Cutting a stream at two positions and gluing the pieces back gives the stream. */
  lemma SplitAt(s: Bytes, i: nat, j: nat)
    requires i <= j <= |s|
    ensures s == s[..i] + s[i..j] + s[j..]
  {
    assert s[..j] == s[..i] + s[i..j];
    assert s == s[..j] + s[j..];
  }

  /** A non-empty well-formed stream is a header, the body it announces, and a
      well-formed rest. */
  lemma DeframeHead(stream: Bytes)
    requires Deframe(stream).Some? && stream != []
    ensures |stream| >= 4 && 4 + DecodeUint32BE(stream[..4]) <= |stream|
    ensures var n := DecodeUint32BE(stream[..4]);
            stream == stream[..4] + stream[4..4 + n] + stream[4 + n..] &&
            Deframe(stream[4 + n..]).Some? &&
            Deframe(stream).value == [stream[4..4 + n]] + Deframe(stream[4 + n..]).value
  {
    SplitAt(stream, 4, 4 + DecodeUint32BE(stream[..4]));
  }

  /** Two well-formed streams written one after the other read back as the
      payloads of the first followed by those of the second. */
  lemma {:induction false} DeframeConcat(stream: Bytes, more: Bytes)
    requires Deframe(stream).Some? && Deframe(more).Some?
    ensures Deframe(stream + more) == Some(Deframe(stream).value + Deframe(more).value)
    decreases |stream|
  {
    if stream == [] {
      assert stream + more == more;
      assert Deframe(stream).value + Deframe(more).value == Deframe(more).value;
    } else {
      DeframeHead(stream);
      var n := DecodeUint32BE(stream[..4]);
      var header, body, tail := stream[..4], stream[4..4 + n], stream[4 + n..];
      DeframeConcat(tail, more);
      AppendAssoc(header + body, tail, more);
      DeframeCons(header, body, tail + more);
      ConsAssoc(body, Deframe(tail).value, Deframe(more).value);
    }
  }

  lemma AppendAssoc<T>(a: seq<T>, b: seq<T>, c: seq<T>)
    ensures a + b + c == a + (b + c)
  {
  }

  lemma ConsAssoc<T>(x: T, a: seq<T>, b: seq<T>)
    ensures [x] + (a + b) == [x] + a + b
  {
  }

  /** Appending a frame to a well-formed stream appends its payload to what the
      host reads back. */
  lemma DeframeAppend(stream: Bytes, payload: Bytes)
    requires Deframe(stream).Some? && |payload| < UINT32_LIMIT
    ensures Deframe(stream + Frame(payload).value).Some?
    ensures Deframe(stream + Frame(payload).value).value == Deframe(stream).value + [payload]
  {
    FrameRoundTrip(payload);
    DeframeConcat(stream, Frame(payload).value);
  }

  /** A message passed to `send`: absent (null or undefined), a string, a buffer,
      or any other object. */
  datatype Message<Obj> = Absent | Str(s: string) | Buffer(bytes: Bytes) | Object(obj: Obj)

  /** JavaScript truthiness of a message: only an absent value and "" are falsy. */
  predicate Truthy<Obj>(msg: Message<Obj>): (b: bool)
    ensures !b <==> msg.Absent? || (msg.Str? && |msg.s| == 0)
  {
    match msg
    case Absent => false
    case Str(s) => s != ""
    case Buffer(_) => true
    case Object(_) => true
  }

  /** The encoders `serialize` relies on: `Buffer.from` on a string and on an
      object, and `Buffer.from(JSON.stringify(...))` on each. */
  datatype Encoders<!Obj> = Encoders(
    textBytes: string -> Bytes,
    objectBytes: Obj -> Bytes,
    jsonText: string -> Bytes,
    jsonObject: Obj -> Bytes)

  /** `UserChannel.serialize`: falsy messages are refused, buffers pass through
      unchanged, and other values are byte-copied under the "bson" protocol and
      JSON-encoded under any other. */
  function Serialize<Obj>(msg: Message<Obj>, protocol: string, enc: Encoders<Obj>): (r: Result<Bytes, Error>)
    ensures r.Err? <==> !Truthy(msg)
    ensures r.Err? ==> r.error == NullContent
    ensures msg.Buffer? ==> r == Ok(msg.bytes)
    ensures msg.Str? && msg.s != "" && protocol == PROTOCOL_BSON ==> r == Ok(enc.textBytes(msg.s))
    ensures msg.Str? && msg.s != "" && protocol != PROTOCOL_BSON ==> r == Ok(enc.jsonText(msg.s))
    ensures msg.Object? && protocol == PROTOCOL_BSON ==> r == Ok(enc.objectBytes(msg.obj))
    ensures msg.Object? && protocol != PROTOCOL_BSON ==> r == Ok(enc.jsonObject(msg.obj))
  {
    if !Truthy(msg) then Err(NullContent)
    else
      match msg
      case Buffer(bytes) => Ok(bytes)
      case Str(s) => if protocol == PROTOCOL_BSON then Ok(enc.textBytes(s)) else Ok(enc.jsonText(s))
      case Object(obj) => if protocol == PROTOCOL_BSON then Ok(enc.objectBytes(obj)) else Ok(enc.jsonObject(obj))
  }

  /** One user's output channel; `output` is every byte written to `outfd` so far. */
  class UserChannel {
    const outfd: int
    const protocol: string
    var output: Bytes

    /** The output splits into whole frames. */
    ghost predicate Valid()
      reads this
    {
      Deframe(output).Some?
    }

    /** The payloads the host has been sent, in order. */
    ghost function Sent(): seq<Bytes>
      reads this
      requires Valid()
    {
      Deframe(output).value
    }

    constructor (outfd: int, protocol: string)
      ensures Valid() && Sent() == []
      ensures this.outfd == outfd && this.protocol == protocol && output == []
    {
      this.outfd := outfd;
      this.protocol := protocol;
      output := [];
    }

    /** Serialises `msg` and writes the header and the payload as one frame; a
        refused message or an unencodable length throws and writes nothing. */
    method Send<Obj>(msg: Message<Obj>, enc: Encoders<Obj>) returns (r: Outcome<Error>)
      requires Valid()
      modifies this`output
      ensures Valid()
      ensures Serialize(msg, protocol, enc).Err? ==>
                r == Fail(NullContent) && output == old(output)
      ensures Serialize(msg, protocol, enc).Ok? && Frame(Serialize(msg, protocol, enc).value).Err? ==>
                r == Fail(LengthOutOfRange) && output == old(output)
      ensures Serialize(msg, protocol, enc).Ok? && Frame(Serialize(msg, protocol, enc).value).Ok? ==>
                var payload := Serialize(msg, protocol, enc).value;
                r == Pass
                && output == old(output) + EncodeUint32BE(|payload|) + payload
                && Sent() == old(Sent()) + [payload]
    {
      var serialized := Serialize(msg, protocol, enc);
      if serialized.Err? {
        return Fail(serialized.error);
      }
      var payload := serialized.value;
      var frame := Frame(payload);
      if frame.Err? {
        return Fail(frame.error);
      }
      DeframeAppend(output, payload);
      output := output + frame.value;
      r := Pass;
    }
  }

  /** One (offset, size) range of the shared input file. */
  datatype UserInput = UserInput(offset: nat, size: nat)

  /** A connected user: its public key, its input ranges and its output channel. */
  class User {
    const publicKey: string
    const inputs: seq<UserInput>
    const channel: UserChannel

    constructor (publicKey: string, channel: UserChannel, inputs: seq<UserInput>)
      ensures this.publicKey == publicKey && this.channel == channel && this.inputs == inputs
    {
      this.publicKey := publicKey;
      this.channel := channel;
      this.inputs := inputs;
    }

    /** Sends `msg` on the user's own channel. */
    method Send<Obj>(msg: Message<Obj>, enc: Encoders<Obj>) returns (r: Outcome<Error>)
      requires channel.Valid()
      modifies channel`output
      ensures channel.Valid()
      ensures Serialize(msg, channel.protocol, enc).Err? ==>
                r == Fail(NullContent) && channel.output == old(channel.output)
      ensures Serialize(msg, channel.protocol, enc).Ok? && Frame(Serialize(msg, channel.protocol, enc).value).Err? ==>
                r == Fail(LengthOutOfRange) && channel.output == old(channel.output)
      ensures Serialize(msg, channel.protocol, enc).Ok? && Frame(Serialize(msg, channel.protocol, enc).value).Ok? ==>
                var payload := Serialize(msg, channel.protocol, enc).value;
                r == Pass
                && channel.output == old(channel.output) + EncodeUint32BE(|payload|) + payload
                && channel.Sent() == old(channel.Sent()) + [payload]
    {
      r := channel.Send(msg, enc);
    }
  }

  /** One element of a user's startup array: the output descriptor first, then
      (offset, size) pairs. */
  datatype ArgItem = Number(n: int) | Pair(offset: nat, size: nat)

  /** The caller's array for one user, which the collection splices in place. */
  class UserArray {
    var items: seq<ArgItem>

    constructor (items: seq<ArgItem>)
      ensures this.items == items
    {
      this.items := items;
    }
  }

  /** `splice(0, 1)`: the array without its first element. */
  function Spliced(items: seq<ArgItem>): (r: seq<ArgItem>)
    ensures items != [] ==> [items[0]] + r == items
  {
    if items == [] then items else items[1..]
  }

  /** The shape the startup arguments declare for a user's array. */
  predicate WellTyped(items: seq<ArgItem>) {
    |items| >= 1 && items[0].Number? && forall i :: 1 <= i < |items| ==> items[i].Pair?
  }

  /** The input ranges of the pairs in an array. */
  function Inputs(pairs: seq<ArgItem>): (r: seq<UserInput>)
    requires forall i :: 0 <= i < |pairs| ==> pairs[i].Pair?
    ensures |r| == |pairs|
  {
    seq(|pairs|, i requires 0 <= i < |pairs| => UserInput(pairs[i].offset, pairs[i].size))
  }

  /** `u` is the user the collection builds for `key` from the array `items`. */
  predicate BuiltFrom(u: User, key: string, items: seq<ArgItem>, protocol: string)
    requires WellTyped(items)
  {
    && u.publicKey == key
    && u.channel.outfd == items[0].n
    && u.channel.protocol == protocol
    && u.inputs == Inputs(Spliced(items))
  }

  /** One entry of the startup object: the first array element becomes the
      output descriptor of a fresh channel and is spliced out of the caller's
      array; the rest, copied, are the user's inputs. */
  method BuildUser(publicKey: string, arr: UserArray, clientProtocol: string) returns (user: User)
    requires WellTyped(arr.items)
    modifies arr
    ensures arr.items == Spliced(old(arr.items))
    ensures BuiltFrom(user, publicKey, old(arr.items), clientProtocol)
    ensures fresh(user) && fresh(user.channel) && user.channel.output == []
  {
    var outfd := arr.items[0].n;
    arr.items := Spliced(arr.items);
    var channel := new UserChannel(outfd, clientProtocol);
    user := new User(publicKey, channel, Inputs(arr.items));
  }

  /** The constructor's loop over the startup object's entries: the first array
      element becomes the output descriptor and is spliced out of the caller's
      array; the rest, copied, are the user's inputs. */
  method BuildUsers(usersObj: seq<(string, UserArray)>, clientProtocol: string)
      returns (ks: seq<string>, us: map<string, User>)
    requires forall i, j :: 0 <= i < j < |usersObj| ==> usersObj[i].0 != usersObj[j].0 && usersObj[i].1 != usersObj[j].1
    requires forall i :: 0 <= i < |usersObj| ==> WellTyped(usersObj[i].1.items)
    modifies set i | 0 <= i < |usersObj| :: usersObj[i].1
    ensures ks == KeysOf(usersObj) && Distinct(ks) && us.Keys == set k | k in ks
    ensures forall i :: 0 <= i < |usersObj| ==>
              usersObj[i].0 in us && BuiltFrom(us[usersObj[i].0], usersObj[i].0, old(usersObj[i].1.items), clientProtocol)
    ensures forall i :: 0 <= i < |usersObj| ==> usersObj[i].1.items == Spliced(old(usersObj[i].1.items))
    ensures forall k :: k in us ==> us[k].publicKey == k
    ensures forall k :: k in us ==> fresh(us[k]) && fresh(us[k].channel) && us[k].channel.output == []
    ensures forall k1, k2 :: k1 in us && k2 in us && k1 != k2 ==> us[k1].channel != us[k2].channel
  {
    ks, us := [], map[];
    for i := 0 to |usersObj|
      invariant ks == KeysOf(usersObj[..i])
      invariant us.Keys == set k | k in ks
      invariant forall j :: 0 <= j < i ==>
                  usersObj[j].0 in us && BuiltFrom(us[usersObj[j].0], usersObj[j].0, old(usersObj[j].1.items), clientProtocol)
      invariant forall j :: 0 <= j < i ==> usersObj[j].1.items == Spliced(old(usersObj[j].1.items))
      invariant forall j :: i <= j < |usersObj| ==> usersObj[j].1.items == old(usersObj[j].1.items)
      invariant forall k :: k in us ==> us[k].publicKey == k
      invariant forall k :: k in us ==> fresh(us[k]) && fresh(us[k].channel) && us[k].channel.output == []
      invariant forall k1, k2 :: k1 in us && k2 in us && k1 != k2 ==> us[k1].channel != us[k2].channel
    {
      var publicKey := usersObj[i].0;
      var user := BuildUser(publicKey, usersObj[i].1, clientProtocol);
      us := us[publicKey := user];
      ks := ks + [publicKey];
      assert usersObj[..i + 1] == usersObj[..i] + [usersObj[i]];
    }
    assert usersObj[..|usersObj|] == usersObj;
  }

  /** The users of one contract invocation, keyed by public key. `keys` keeps
      the order of the startup object's entries. */
  class UsersCollection {
    const infd: int
    const keys: seq<string>
    const users: map<string, User>

    ghost predicate Valid() {
      && Distinct(keys)
      && (set k | k in keys) == users.Keys
      && (forall k :: k in users ==> users[k].publicKey == k)
      && (forall k1, k2 :: k1 in users && k2 in users && k1 != k2 ==> users[k1].channel != users[k2].channel)
    }

    /** Builds one user per entry of the startup object (see `BuildUsers`). */
    constructor (userInputsFd: int, usersObj: seq<(string, UserArray)>, clientProtocol: string)
      requires forall i, j :: 0 <= i < j < |usersObj| ==> usersObj[i].0 != usersObj[j].0 && usersObj[i].1 != usersObj[j].1
      requires forall i :: 0 <= i < |usersObj| ==> WellTyped(usersObj[i].1.items)
      modifies set i | 0 <= i < |usersObj| :: usersObj[i].1
      ensures Valid()
      ensures infd == userInputsFd && keys == KeysOf(usersObj)
      ensures forall i :: 0 <= i < |usersObj| ==>
                usersObj[i].0 in users && BuiltFrom(users[usersObj[i].0], usersObj[i].0, old(usersObj[i].1.items), clientProtocol)
      ensures forall i :: 0 <= i < |usersObj| ==> usersObj[i].1.items == Spliced(old(usersObj[i].1.items))
      ensures forall k :: k in users ==> fresh(users[k]) && fresh(users[k].channel) && users[k].channel.output == []
      ensures forall k1, k2 :: k1 in users && k2 in users && k1 != k2 ==> users[k1].channel != users[k2].channel
    {
      var ks, us := BuildUsers(usersObj, clientProtocol);
      infd := userInputsFd;
      keys := ks;
      users := us;
    }

    /** The user for `publicKey`, or nothing for a key the startup object lacks. */
    function Find(publicKey: string): (r: Option<User>)
      requires Valid()
      ensures r.Some? <==> publicKey in keys
      ensures r.Some? ==> r.value.publicKey == publicKey && r.value in users.Values
    {
      if publicKey in users then Some(users[publicKey]) else None
    }

    /** Every user, in entry order. */
    function List(): (us: seq<User>)
      requires Valid()
      ensures |us| == |keys|
      ensures forall i :: 0 <= i < |us| ==> us[i].publicKey == keys[i]
      ensures forall k :: k in users ==> users[k] in us
    {
      seq(|keys|, i requires 0 <= i < |keys| => users[keys[i]])
    }

    /** The number of users: one per key of the startup object. */
    function Count(): (n: nat)
      requires Valid()
      ensures n == |users|
    {
      DistinctCardinality(keys);
      |keys|
    }

    /** `read`: a zero-filled buffer of exactly `input.size` bytes into which the
        bytes of `file` from `input.offset` on are read; bytes past the end of the
        file stay zero. */
    function Read(file: Bytes, input: UserInput): (buf: Bytes)
      ensures |buf| == input.size
      ensures input.offset + input.size <= |file| ==> buf == file[input.offset..input.offset + input.size]
      ensures forall i :: 0 <= i < input.size && input.offset + i >= |file| ==> buf[i] == 0
    {
      seq(input.size, i requires 0 <= i < input.size =>
        if input.offset + i < |file| then file[input.offset + i] else 0)
    }
  }

  /** A contract that echoes a user's input. The startup object has one entry,
      `[7, [0, 10]]`: output descriptor 7 and one input, the range (0, 10). The
      contract finds that user in the collection, reads its input and sends it
      back. Descriptor 7 receives the header 0, 0, 0, 10 and then the first ten
      bytes of the input file, and the host reads back exactly those ten bytes. */
  method EchoFrame<Obj>(file: Bytes, publicKey: string, protocol: string, enc: Encoders<Obj>)
      returns (users: UsersCollection, user: User, r: Outcome<Error>)
    requires |file| >= 10
    ensures users.Valid() && users.keys == [publicKey] && users.Find(publicKey) == Some(user)
    ensures r == Pass && user.publicKey == publicKey && user.inputs == [UserInput(0, 10)]
    ensures user.channel.outfd == 7 && user.channel.output == [0, 0, 0, 10] + file[..10]
    ensures user.channel.Valid() && user.channel.Sent() == [file[..10]]
  {
    var arr := new UserArray([Number(7), Pair(0, 10)]);
    users := new UsersCollection(3, [(publicKey, arr)], protocol);
    assert users.keys == [publicKey];
    var found := users.Find(publicKey);
    user := found.value;
    assert user.channel.output == [];
    var buf := users.Read(file, user.inputs[0]);
    assert buf == file[..10];
    r := user.Send(Buffer(buf), enc);
  }

  /** Sending to one user through the collection writes to that user's channel
      alone: every other user's output is left as it was. */
  method SendToOne<Obj>(users: UsersCollection, publicKey: string, msg: Message<Obj>, enc: Encoders<Obj>)
      returns (r: Option<Outcome<Error>>)
    requires users.Valid()
    requires forall k :: k in users.users ==> users.users[k].channel.Valid()
    modifies if publicKey in users.users then {users.users[publicKey].channel} else {}
    ensures r.Some? <==> publicKey in users.keys
    ensures forall k :: k in users.users && k != publicKey ==>
              users.users[k].channel.output == old(users.users[k].channel.output)
    ensures publicKey in users.users ==>
              var u := users.users[publicKey];
              var payload := Serialize(msg, u.channel.protocol, enc);
              && u.channel.Valid()
              && (payload.Err? ==> r == Some(Fail(NullContent)) && u.channel.output == old(u.channel.output))
              && (payload.Ok? && Frame(payload.value).Err? ==>
                    r == Some(Fail(LengthOutOfRange)) && u.channel.output == old(u.channel.output))
              && (payload.Ok? && Frame(payload.value).Ok? ==>
                    r == Some(Pass) && u.channel.output == old(u.channel.output) + Frame(payload.value).value)
  {
    var found := users.Find(publicKey);
    if found.None? {
      return None;
    }
    var user := found.value;
    assert user == users.users[publicKey];
    var sent := user.Send(msg, enc);
    r := Some(sent);
  }
}
