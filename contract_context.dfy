/** The contract context handed to every contract invocation: the arguments of the
    run, the user and UNL collections, and peer-list updates sent to the host over
    the control channel. */
module Context {
  import opened Common
  import opened User
  import opened Unl
  import opened Control

  /** The run arguments the host passes in; `lclSeqNo` and `lclHash` are absent in
      readonly mode. */
  datatype HotPocketArguments = HotPocketArguments(
    contractId: string,
    publicKey: string,
    privateKey: string,
    readonly: bool,
    timestamp: int,
    lclSeqNo: Option<int>,
    lclHash: Option<string>)

  /** The context's read-only fields; `unl` is null when no UNL collection is given
      (readonly mode). */
  datatype ContractContext = ContractContext(
    contractId: string,
    publicKey: string,
    privateKey: string,
    readonly: bool,
    timestamp: int,
    users: UsersCollection,
    unl: UnlCollection?,
    lclSeqNo: Option<int>,
    lclHash: Option<string>,
    controlChannel: ControlChannel)

  /** The constructor: every field is copied from the arguments or is the object
      passed in, with no copy or filtering. */
  function NewContext(args: HotPocketArguments, users: UsersCollection, unl: UnlCollection?, controlChannel: ControlChannel): (ctx: ContractContext)
    ensures ctx.contractId == args.contractId && ctx.publicKey == args.publicKey
    ensures ctx.privateKey == args.privateKey && ctx.readonly == args.readonly
    ensures ctx.timestamp == args.timestamp
    ensures ctx.users == users && ctx.unl == unl && ctx.controlChannel == controlChannel
    ensures ctx.lclSeqNo == args.lclSeqNo && ctx.lclHash == args.lclHash
  {
    ContractContext(args.contractId, args.publicKey, args.privateKey, args.readonly, args.timestamp,
                    users, unl, args.lclSeqNo, args.lclHash, controlChannel)
  }

  /** The control message asking the host to change its known peers. */
  datatype ControlMessage = ControlMessage(msgType: string, add: seq<string>, remove: seq<string>)

  /** An optional peer list, defaulting to the empty list when absent. */
  function OrEmpty(peers: Option<seq<string>>): seq<string> {
    if peers.Some? then peers.value else []
  }

  /** The `peer_changeset` message for the given peers to add and remove: supplied
      lists pass through unchanged, absent ones become empty. */
  function PeerChangeset(toAdd: Option<seq<string>>, toRemove: Option<seq<string>>): (m: ControlMessage)
    ensures m.msgType == PEER_CHANGESET
    ensures toAdd.Some? ==> m.add == toAdd.value
    ensures toAdd.None? ==> m.add == []
    ensures toRemove.Some? ==> m.remove == toRemove.value
    ensures toRemove.None? ==> m.remove == []
  {
    ControlMessage(PEER_CHANGESET, OrEmpty(toAdd), OrEmpty(toRemove))
  }

  /** The host cannot tell an absent list from an empty one, and the message
      determines every supplied list: two calls give the same message exactly
      when they agree once absent lists are read as empty. */
  lemma PeerChangesetEquality(a1: Option<seq<string>>, r1: Option<seq<string>>,
                              a2: Option<seq<string>>, r2: Option<seq<string>>)
    ensures PeerChangeset(a1, r1) == PeerChangeset(a2, r2) <==> OrEmpty(a1) == OrEmpty(a2) && OrEmpty(r1) == OrEmpty(r2)
  {
    var m1, m2 := PeerChangeset(a1, r1), PeerChangeset(a2, r2);
    if m1 == m2 {
      assert m1.add == m2.add && m1.remove == m2.remove;
    }
  }

  /** `updatePeers`: sends the `peer_changeset` message on the control channel,
      serialised by `stringify`; a message over 128 KiB throws and sends nothing. */
  method UpdatePeers(ctx: ContractContext, toAdd: Option<seq<string>>, toRemove: Option<seq<string>>,
                     stringify: ControlMessage -> Bytes) returns (r: Outcome<Error>)
    modifies ctx.controlChannel`written
    ensures !FitsPacket(stringify(PeerChangeset(toAdd, toRemove))) ==>
              r == Fail(MessageTooLarge) && ctx.controlChannel.written == old(ctx.controlChannel.written)
    ensures FitsPacket(stringify(PeerChangeset(toAdd, toRemove))) ==>
              r == Pass && ctx.controlChannel.written == old(ctx.controlChannel.written) + [stringify(PeerChangeset(toAdd, toRemove))]
  {
    r := ctx.controlChannel.Send(PeerChangeset(toAdd, toRemove), stringify);
  }
}
