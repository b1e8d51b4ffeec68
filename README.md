# HotPocket Node.js contract binding — Dafny model

This project models the core of the HotPocket smart-contract library for Node.js.
That core is the layer through which a contract process talks to its HotPocket
node:

- **NPL channel** (node-party line). Messages to and from the other UNL nodes go
  over one sequenced-packet descriptor. The host writes every inbound message as
  two datagrams: the sender's public key, then the payload. The channel's data
  handler pairs them back up through a single identity slot. This is `Npl.Pairing`
  on values, and the `Npl.NplChannel` class with its `Feed` loop.
- **Control channel.** JSON control messages to and from the host
  (`Control.ControlChannel`).
- **Users.** `User.UsersCollection` is built from the startup object. Each user's
  array is spliced in place: the output descriptor is taken off the front, and the
  remaining (offset, size) pairs become its inputs. Each user writes a stream of
  frames to its own descriptor. A frame is a 4-byte big-endian length followed by
  the payload that `serialize` produces.
- **UNL.** `Unl.UnlCollection` holds the unique node list. In mutating mode it
  filters inbound NPL messages, keeping only known senders, and each kept message
  is pushed onto the shared pending-task list.
- **Patch configuration.** `Config.Validate` is the ordered guard chain of
  `validateConfig`. `Config.PatchConfig.UpdateConfig` validates before it writes.
- **Contract context.** `Context.NewContext` copies the run arguments.
  `Context.PeerChangeset` and `Context.UpdatePeers` build and send the
  `peer_changeset` control message.

Each file mirrors one source file:

| file | source file |
|---|---|
| `common.dfy` | `src/common.ts` |
| `npl.dfy` | `src/npl.ts` |
| `control.dfy` | `src/control.ts` |
| `user.dfy` | `src/user.ts` |
| `unl.dfy` | `src/unl.ts` |
| `patch_config.dfy` | `src/patch-config.ts` |
| `contract_context.dfy` | `src/contract-context.ts` |

The two channels and the collections update their own state, so they are classes.
A descriptor's writes are a `written` (or `output`) field. A live read stream is
`consumed`. The NPL handler's `publicKey` slot is `pending`. Validation, framing,
serialisation and message construction are pure, so they are functions.

Throwing is modelled as a result value. `Outcome` is pass or fail with an error,
and `Result` is a value or an error. The error kinds carry the source's messages
in comments. JSON encoding and `Buffer.from` are not modelled: they are
function-typed parameters (`stringify`, `Encoders`). Decoding a public-key
datagram (`Buffer.toString`) is `Common.Text`, which maps one character to each
byte. That is exact for the ASCII keys the host sends.

Two behaviours of the code are easy to misread, and the model keeps both as written:

- **`read` with a short read.** `UsersCollection.read` allocates a zero-filled
  buffer of `size` bytes and returns it whatever number of bytes the read
  returned. A range past the end of the input file therefore yields trailing zero
  bytes, not an error (`User.UsersCollection.Read`).
- **The roundtime guard.** Its message says a roundtime must be between 1 and
  3600000 ms inclusive, but `validateConfig` joins its two tests with `&&`, so no
  roundtime is ever rejected. The model keeps this as written and
  proves it (`Config.RoundtimeNeverRejected`).

## Model

| member | source | states |
|---|---|---|
| Common.Text | src/npl.ts:33 | decoding a datagram gives one character per byte: same length, and character i has the code of byte i |
| Common.KeysOf | src/user.ts:13 | the keys of an object's entries: one per entry, in entry order |
| Common.DistinctCardinality | src/user.ts:32-34 | keys without repeats number as many as the entries, so `Object.keys(...).length` counts the entries |
| Npl.Step | src/npl.ts:30-39 | the data handler on one chunk emits a message exactly when a truthy identity is held; the message carries that identity and the chunk unchanged, and the slot is cleared; otherwise the chunk's text becomes the identity |
| Npl.Pairing | src/npl.ts:28-39 | the handler run over chunks in order emits at most one message per two chunks (one more if an identity is already held) |
| Npl.Frames | src/npl.ts:25-27 | the host writes two datagrams per message, so n messages give 2n datagrams |
| Npl.Decoded | src/npl.ts:36 | the messages a consumer should see: one per (key, payload) pair, with the key decoded and the payload unchanged |
| Npl.Pairs | src/npl.ts:32-38 | a stream taken two chunks at a time gives ⌊n/2⌋ messages |
| Npl.PairingSplit | src/npl.ts:28-39 | the identity slot outlives a data event: feeding two batches of chunks emits what feeding them at once does, and leaves the same slot |
| Npl.PairingSnoc | src/npl.ts:30-39 | one more chunk is one more run of the data handler: it emits at most one message and updates the slot |
| Npl.NoEmptyIdentity | src/npl.ts:32-36 | no message is ever emitted with an empty public key |
| Npl.EmptyIdentityIgnored | src/npl.ts:32-33 | an empty chunk while an identity is awaited is stored as the falsy "", emits nothing, and the following chunks pair up as if it had never arrived |
| Npl.PairingTwo | src/npl.ts:32-38 | a non-empty identity chunk followed by a payload chunk emits exactly that one message and hands an empty slot to the rest of the stream |
| Npl.PairingRoundTrip | src/npl.ts:28-39 | the host's datagrams for pairs with non-empty keys are paired back into exactly those messages, in order, and the slot ends empty |
| Npl.PairingAlternates | src/npl.ts:32-38 | for non-empty chunks, chunks 2k and 2k+1 form message k with the payload unchanged; an odd last chunk is left waiting as the identity |
| Npl.PairingExample | src/npl.ts:28-39 | the stream a, h, b, w with non-empty a and b emits (a, h) and then (b, w) |
| Npl.NplChannel.constructor | src/npl.ts:11-13 | a new channel has no read stream, no held identity and nothing written |
| Npl.NplChannel.Consume | src/npl.ts:15-23 | a second consume before close fails with "already consumed" and changes nothing; the first attaches the handler with an empty slot |
| Npl.NplChannel.Feed | src/npl.ts:30-39 | the handler run over the chunks in order emits exactly `Pairing`'s messages and leaves `Pairing`'s slot |
| Npl.NplChannel.Send | src/npl.ts:46-52 | a buffer longer than 128 KiB throws and writes nothing; otherwise exactly that buffer is written, including one of exactly 128 KiB |
| Npl.NplChannel.Close | src/npl.ts:54-59 | close leaves no read stream, so a later consume is accepted; on a channel never consumed or already closed it changes nothing |
| Control.ControlChannel.constructor | src/control.ts:10-12 | a new channel has no read stream and nothing written |
| Control.ControlChannel.Consume | src/control.ts:14-18 | a second consume before close fails with "already consumed"; afterwards a read stream is attached |
| Control.ControlChannel.Feed | src/control.ts:24-27 | the callback receives exactly the chunks read: each once, unchanged and in arrival order |
| Control.ControlChannel.Send | src/control.ts:34-40 | a serialisation longer than 128 KiB throws and writes nothing; otherwise exactly the serialised bytes are written |
| Control.ControlChannel.Close | src/control.ts:42-47 | close leaves no read stream, so consume is accepted again; it is safe before any consume |
| User.EncodeUint32BE | src/user.ts:71-73 | the length header is four bytes |
| User.DecodeUint32BE | src/user.ts:73 | a four-byte header stands for a number below 2^32 |
| User.DecodeEncode | src/user.ts:73 | decoding the header written for a length gives that length back |
| User.EncodeDecode | src/user.ts:73 | every four-byte header is the header of the length it decodes to |
| User.Frame | src/user.ts:69-75 | a frame is the 4-byte big-endian length followed by the payload unchanged; a length of 2^32 or more makes `writeUInt32BE` throw |
| User.FrameRoundTrip | src/user.ts:70-74 | reading a frame's header and then that many bytes recovers the payload, and nothing is left over |
| User.DeframeConcat | src/user.ts:74 | two well-formed output streams written one after the other read back as the payloads of the first followed by those of the second |
| User.DeframeAppend | src/user.ts:74 | appending a frame to a well-formed output stream appends exactly its payload to what the host reads back |
| User.Truthy | src/user.ts:78 | `!msg` holds exactly for an absent message and the empty string; every buffer, even an empty one, and every object is truthy |
| User.Serialize | src/user.ts:77-87 | throws "null content" exactly on a falsy message (absent, or ""); passes a buffer through unchanged, even an empty one; byte-copies a string or object under "bson" and JSON-encodes it otherwise |
| User.UserChannel.constructor | src/user.ts:64-67 | a new channel keeps its descriptor and protocol and has written nothing |
| User.UserChannel.Send | src/user.ts:69-75 | writes header ++ payload for the serialised message and nothing else; the host reads back exactly one more payload; a refused message or length writes nothing |
| User.User.constructor | src/user.ts:49-53 | a user keeps the public key, channel and inputs it is given |
| User.User.Send | src/user.ts:55-57 | sending on a user is sending on its own channel: header ++ payload is written and the host reads back one more payload; a falsy message throws "null content" and a payload of 2^32 bytes or more throws from `writeUInt32BE`, both writing nothing |
| User.UserArray.constructor | src/user.ts:4 | a user's startup array holds the items given |
| User.Spliced | src/user.ts:15 | `splice(0, 1)` removes exactly the first element |
| User.Inputs | src/user.ts:18 | the user's inputs are the remaining (offset, size) pairs, one per pair, in order |
| User.BuildUser | src/user.ts:14-18 | one entry's callback: the array's first element becomes the output descriptor of a fresh channel with nothing written, the caller's array loses that element, and the user's inputs are the remaining pairs in order |
| User.BuildUsers | src/user.ts:13-19 | one user per key of the startup object, keyed by that key; its output descriptor is the array's first element, its inputs the rest in order; each caller array loses its first element, and inputs are a separate copy; distinct users get distinct channel objects |
| User.UsersCollection.constructor | src/user.ts:10-20 | the collection holds exactly the users built from the startup object, in entry order; each caller array is spliced in place, and distinct users get distinct channel objects |
| User.UsersCollection.Find | src/user.ts:23-25 | returns the user built for the key, and nothing for a key the startup object lacks |
| User.UsersCollection.List | src/user.ts:28-30 | every user exactly once, in entry order |
| User.UsersCollection.Count | src/user.ts:32-34 | the count equals the number of users, one per key of the startup object |
| User.UsersCollection.Read | src/user.ts:36-41 | returns exactly `size` bytes: the file's bytes from `offset` when the range is inside the file, zero bytes past its end |
| User.SendToOne | src/user.ts:13-57 | looking a user up and sending to it writes only to that user's own channel (a fresh `UserChannel` per entry, line 17) and leaves every other user's output unchanged; a falsy message fails with NullContent and a payload of 2^32 bytes or more with LengthOutOfRange, both writing nothing; otherwise one frame is written; an unknown key finds nobody |
| User.EchoFrame | src/user.ts:10-57 | a collection built from one startup entry `[7, [0, 10]]` finds that user; the user reads its input (0, 10) and sends it back, so descriptor 7 receives header 0, 0, 0, 10 and then the first ten bytes of the input file, and the host reads back exactly those bytes |
| Unl.TaskList.constructor | src/hotpocket-contract.ts:77 | the pending-task list starts empty |
| Unl.DispatchOne | src/unl.ts:79-82 | one message adds at most one task, and it adds one exactly when the sender is a UNL key; that task carries the sender's node and the message unchanged |
| Unl.Dispatched | src/unl.ts:78-83 | messages delivered in order add at most one task each |
| Unl.DispatchedSplit | src/unl.ts:78-83 | dispatching two runs of messages adds the first run's tasks and then the second's |
| Unl.DispatchedSnoc | src/unl.ts:78-83 | one more message adds exactly that message's dispatch |
| Unl.UnknownSendersDropped | src/unl.ts:79-80 | messages from keys outside the UNL add no task |
| Unl.KnownSendersDispatched | src/unl.ts:79-82 | messages from UNL members add exactly one task each, in order, carrying the sender's node and the message unchanged |
| Unl.BuildNodes | src/unl.ts:44-46 | one node per UNL key, carrying that key and its `active_on` |
| Unl.UnlCollection.constructor | src/unl.ts:34-52 | in readonly mode no nodes and no channel, whatever UNL is given; otherwise one node per key with `publicKey` = key and `activeOn` = `active_on`, and the channel given |
| Unl.UnlCollection.Find | src/unl.ts:55-57 | returns the node for the key, and nothing for a key outside the UNL |
| Unl.UnlCollection.List | src/unl.ts:60-62 | every node exactly once, in entry order |
| Unl.UnlCollection.Count | src/unl.ts:64-66 | the count equals the number of nodes, and it is zero in readonly mode |
| Unl.UnlCollection.OnMessage | src/unl.ts:69-84 | throws in readonly mode, or without a channel; on a channel already consumed it throws "already consumed" and the channel stays consumed with its slot unchanged; otherwise it consumes the channel with the dispatch handler and an empty slot |
| Unl.UnlCollection.Dispatch | src/unl.ts:78-83 | a known sender's message appends exactly one task; an unknown sender's changes nothing; earlier tasks are untouched |
| Unl.UnlCollection.DispatchAll | src/unl.ts:78-83 | dispatching messages in order appends exactly `Dispatched` to the pending tasks |
| Unl.UnlCollection.Receive | src/unl.ts:78-83 | chunks on the subscribed channel are paired into messages as the NPL handler pairs them, and each message is dispatched in order |
| Unl.UnlCollection.Send | src/unl.ts:87-97 | throws in readonly mode or without a channel; otherwise forwards the message to the channel unchanged, and the channel's size check applies |
| Config.HexRunPositions | src/patch-config.ts:72 | the pattern part `[0-9a-fA-F]{n}` anchored at the end matches exactly a string of n characters that are all hex digits |
| Config.ValidPublicKey | src/patch-config.ts:72 | the anchored key pattern matches exactly a 66-character key starting with `e` or `E`, then `d` or `D`, then 64 hex digits |
| Config.KeyError | src/patch-config.ts:68-74 | the key loop throws only "not specified" or "invalid", and "not specified" only when some key is empty |
| Config.KeyErrorFirstBad | src/patch-config.ts:68-74 | the key loop throws exactly when some key is bad; the first bad key decides: "not specified" if empty, "invalid" otherwise |
| Config.Validate | src/patch-config.ts:62-92 | a config passes exactly when version, UNL, bin path and both modes are present and valid, stage slice is in [1, 33], threshold in [1, 100], and all round limits and the ledger offset are ≥ 0; no condition on roundtime |
| Config.RankInjective | src/patch-config.ts:62-92 | each guard has its own position in the chain |
| Config.ValidateAgreesWithGuards | src/patch-config.ts:62-92 | a thrown error's guard fires and no earlier guard does; a pass means no guard fires |
| Config.ValidateIsFirstFiring | src/patch-config.ts:62-92 | guards run in the order `validateConfig` runs them: validation throws e exactly when e's guard fires and no earlier guard does |
| Config.RoundtimeNeverRejected | src/patch-config.ts:79-80 | the roundtime guard never fires, and changing `roundtime` alone never changes the verdict |
| Config.PatchConfig.constructor | src/patch-config.ts:35 | the file holds the bytes given |
| Config.PatchConfig.UpdateConfig | src/patch-config.ts:50-60 | validates first; an invalid config throws its validation error and nothing is written; a valid one is written as its formatted JSON |
| Context.NewContext | src/contract-context.ts:39-56 | contract id, keys, readonly flag and timestamp are the arguments' fields; `lclSeqNo` and `lclHash` are copied as-is, so they are absent exactly when absent in the arguments; users, UNL and control channel are the objects passed in |
| Context.PeerChangeset | src/contract-context.ts:70-76 | the message type is `peer_changeset`; supplied lists pass through unchanged and absent ones become empty |
| Context.PeerChangesetEquality | src/contract-context.ts:73-74 | two calls give the same message exactly when their lists agree once absent lists are read as empty |
| Context.UpdatePeers | src/contract-context.ts:70-76 | sends the `peer_changeset` message on the control channel under the control channel's size check |

## Left out

- `src/hotpocket-contract.ts`, the execution lifecycle, is not part of this model. It covers the tty check, reading the arguments from stdin, the `Promise.all` drain of pending tasks and `process.kill`. These are process control and promise sequencing.
- The I/O wrappers in `src/common.ts` (`writeAsync`, `writevAsync`, `readAsync`) and `invokeCallback` are left out. A write is an append to the channel's `written`/`output` field. A pending callback invocation is a `Task` entry in the shared list. Callback bodies and their awaiting are not modelled.
- Read streams are left out: `fs.createReadStream`, chunking by `highWaterMark`, and read-stream error logging. A chunk is a byte sequence that arrives as given.
- JSON encoding, `Buffer.from` on strings and objects, and UTF-8 are function parameters, not modelled.
- Common.Text: decodes one character per byte, not UTF-8. This is exact for the ASCII public keys the host sends. A key containing multi-byte UTF-8 would decode differently.
- Npl.NplChannel.Send: takes bytes only. The `Buffer.from` conversion of a string argument is not modelled.
- Unl.UnlCollection.Send: takes bytes only, for the same reason. A string or object passed to the NPL channel is not modelled.
- User.Serialize: under "bson" an object goes to an opaque encoder. `Buffer.from` on a plain object throws a TypeError in Node.js, and that error is not modelled.
- User.UsersCollection.Find: does not model keys inherited from `Object.prototype`, such as `"constructor"`. In the source these look up an inherited member instead of returning undefined.
- Unl.UnlCollection.Find: does not model prototype-inherited keys, for the same reason. The same holds for the dispatch rule's lookup.
- User.UsersCollection.Read: the read itself is a pure function of the input file's bytes. Descriptor errors and the asynchronous read are left out.
- User.BuildUsers: requires each startup array to have the declared shape (a number, then pairs), which the type `[number, ...UserInput[]]` declares. It also requires each entry's array to be a separate object. No type can promise that. It holds because the only caller passes the result of `JSON.parse` (src/hotpocket-contract.ts:63 and :80), whose arrays are always separate.
- Config.PatchConfig.UpdateConfig: a failing `writeFile` is not modelled. The file write is an assignment to `stored`.
- `PatchConfig.getConfig` is not modelled. It checks that the file exists, reads it and calls `JSON.parse`, which is file I/O and JSON decoding.
- `ContractContext.getConfig` and `ContractContext.updateConfig` are not modelled. They forward to the patch configuration object, which is modelled on its own as `Config.PatchConfig`.
- Config.Validate: numbers are mathematical integers. Fractional values and `NaN` are left out. `NaN` would pass every range guard in the source, since every comparison with it is false.
- Config.Validate: a missing string field is the empty string. A field of the wrong type, or a missing nested object (which makes the source throw a TypeError), is left out.
- The `send` promises resolve after the write completes. The model treats each write as immediate and in call order.

