/** The UNL (unique node list) seen by the contract: the peers of this node, and
    the NPL messaging to them that is available only when the contract runs in
    mutating (non-readonly) mode. */
module Unl {
  import opened Common
  import opened Npl

  /** One UNL peer: its public key and the ledger sequence it is active from. */
  datatype UnlNode = UnlNode(publicKey: string, activeOn: int)

  /** A pending callback invocation, standing for the promise the dispatch rule
      pushes: the node and the message the callback was invoked with. */
  datatype Task = Task(node: UnlNode, msg: Bytes)

  /** The pending-task list shared with the execution lifecycle, which awaits every
      entry before shutting down. */
  class TaskList {
    var tasks: seq<Task>

    constructor ()
      ensures tasks == []
    {
      tasks := [];
    }
  }

  /** The task the dispatch rule adds for one message: one for a known sender,
      none for an unknown one. */
  function DispatchOne(nodes: map<string, UnlNode>, m: PeerMessage): (ts: seq<Task>)
    ensures |ts| <= 1
    ensures ts != [] <==> m.publicKey in nodes
    ensures ts != [] ==> ts[0].node == nodes[m.publicKey] && ts[0].msg == m.data
  {
    if m.publicKey in nodes then [Task(nodes[m.publicKey], m.data)] else []
  }

  /** The tasks the dispatch rule adds for messages delivered in order. */
  function Dispatched(nodes: map<string, UnlNode>, msgs: seq<PeerMessage>): (ts: seq<Task>)
    ensures |ts| <= |msgs|
  {
    if msgs == [] then [] else DispatchOne(nodes, msgs[0]) + Dispatched(nodes, msgs[1..])
  }

  /** Dispatching two runs of messages adds the tasks of the first, then those of
      the second. */
  lemma {:induction false} DispatchedSplit(nodes: map<string, UnlNode>, xs: seq<PeerMessage>, ys: seq<PeerMessage>)
    ensures Dispatched(nodes, xs + ys) == Dispatched(nodes, xs) + Dispatched(nodes, ys)
  {
    if xs == [] {
      assert xs + ys == ys;
    } else {
      var zs := xs + ys;
      assert zs[0] == xs[0] && zs[1..] == xs[1..] + ys;
      var head := DispatchOne(nodes, xs[0]);
      DispatchedSplit(nodes, xs[1..], ys);
      assert Dispatched(nodes, zs) == head + (Dispatched(nodes, xs[1..]) + Dispatched(nodes, ys));
      assert Dispatched(nodes, xs) == head + Dispatched(nodes, xs[1..]);
    }
  }

  /** One more message adds the tasks of one more dispatch. */
  lemma DispatchedSnoc(nodes: map<string, UnlNode>, xs: seq<PeerMessage>, m: PeerMessage)
    ensures Dispatched(nodes, xs + [m]) == Dispatched(nodes, xs) + DispatchOne(nodes, m)
  {
    DispatchedSplit(nodes, xs, [m]);
    assert [m][1..] == [];
  }

  /** Messages from keys outside the UNL are dropped: they add no task. */
  lemma {:induction false} UnknownSendersDropped(nodes: map<string, UnlNode>, msgs: seq<PeerMessage>)
    requires forall i :: 0 <= i < |msgs| ==> msgs[i].publicKey !in nodes
    ensures Dispatched(nodes, msgs) == []
  {
    if msgs != [] {
      UnknownSendersDropped(nodes, msgs[1..]);
    }
  }

  /** Messages from UNL members each add exactly one task, in order, carrying the
      sender's node and the message unchanged. */
  lemma {:induction false} KnownSendersDispatched(nodes: map<string, UnlNode>, msgs: seq<PeerMessage>)
    requires forall i :: 0 <= i < |msgs| ==> msgs[i].publicKey in nodes
    ensures |Dispatched(nodes, msgs)| == |msgs|
    ensures forall i :: 0 <= i < |msgs| ==>
              Dispatched(nodes, msgs)[i] == Task(nodes[msgs[i].publicKey], msgs[i].data)
  {
    if msgs != [] {
      KnownSendersDispatched(nodes, msgs[1..]);
      assert Dispatched(nodes, msgs) == [Task(nodes[msgs[0].publicKey], msgs[0].data)] + Dispatched(nodes, msgs[1..]);
    }
  }

  /** The constructor's loop over the UNL object's entries: one node per key,
      carrying the key and its `active_on`. */
  method BuildNodes(unl: seq<(string, int)>) returns (ks: seq<string>, nodes: map<string, UnlNode>)
    requires forall i, j :: 0 <= i < j < |unl| ==> unl[i].0 != unl[j].0
    ensures ks == KeysOf(unl) && Distinct(ks)
    ensures nodes.Keys == set k | k in ks
    ensures forall i :: 0 <= i < |unl| ==> unl[i].0 in nodes && nodes[unl[i].0] == UnlNode(unl[i].0, unl[i].1)
  {
    ks, nodes := [], map[];
    for i := 0 to |unl|
      invariant ks == KeysOf(unl[..i])
      invariant nodes.Keys == set k | k in ks
      invariant forall j :: 0 <= j < i ==> unl[j].0 in nodes && nodes[unl[j].0] == UnlNode(unl[j].0, unl[j].1)
    {
      var (publicKey, activeOn) := unl[i];
      nodes := nodes[publicKey := UnlNode(publicKey, activeOn)];
      ks := ks + [publicKey];
      assert unl[..i + 1] == unl[..i] + [unl[i]];
    }
    assert unl[..|unl|] == unl;
  }

  /** The UNL collection. `keys` keeps the order of the UNL object's entries;
      `subscribed` records that `OnMessage` attached its handler to the channel. */
  class UnlCollection {
    const readonly: bool
    const keys: seq<string>
    const nodes: map<string, UnlNode>
    const channel: NplChannel?
    const pendingTasks: TaskList
    ghost var subscribed: bool

    ghost predicate Valid() {
      && Distinct(keys)
      && (set k | k in keys) == nodes.Keys
      && (forall k :: k in nodes ==> nodes[k].publicKey == k)
      && (readonly ==> keys == [] && channel == null)
    }

    /** In readonly mode the collection holds no nodes and no channel, whatever UNL
        it is given; otherwise one node per UNL key, and the channel given. */
    constructor (readonly: bool, unl: seq<(string, int)>, channel: NplChannel?, pendingTasks: TaskList)
      requires forall i, j :: 0 <= i < j < |unl| ==> unl[i].0 != unl[j].0
      ensures Valid() && !subscribed
      ensures this.readonly == readonly && this.pendingTasks == pendingTasks
      ensures readonly ==> keys == [] && nodes == map[] && this.channel == null
      ensures !readonly ==> keys == KeysOf(unl) && this.channel == channel
      ensures !readonly ==> forall i :: 0 <= i < |unl| ==> unl[i].0 in nodes && nodes[unl[i].0] == UnlNode(unl[i].0, unl[i].1)
    {
      this.readonly := readonly;
      this.pendingTasks := pendingTasks;
      if !readonly {
        var ks, ns := BuildNodes(unl);
        keys, nodes := ks, ns;
        this.channel := channel;
      } else {
        keys, nodes := [], map[];
        this.channel := null;
      }
      subscribed := false;
    }

    /** The node for `publicKey`, or nothing for a key outside the UNL. */
    function Find(publicKey: string): (r: Option<UnlNode>)
      requires Valid()
      ensures r.Some? <==> publicKey in keys
      ensures r.Some? ==> r.value.publicKey == publicKey && r.value in nodes.Values
    {
      if publicKey in nodes then Some(nodes[publicKey]) else None
    }

    /** Every node, in entry order. */
    function List(): (ns: seq<UnlNode>)
      requires Valid()
      ensures |ns| == |keys|
      ensures forall i :: 0 <= i < |ns| ==> ns[i].publicKey == keys[i]
      ensures forall n :: n in nodes.Values <==> n in ns
    {
      seq(|keys|, i requires 0 <= i < |keys| => nodes[keys[i]])
    }

    /** The number of nodes: one per UNL key, none in readonly mode. */
    function Count(): (n: nat)
      requires Valid()
      ensures n == |nodes|
      ensures readonly ==> n == 0
    {
      DistinctCardinality(keys);
      |keys|
    }

    /** Registers for NPL messages by consuming the channel with the dispatch rule
        as handler; throws in readonly mode, without a channel, or when the channel
        is already consumed. */
    method OnMessage() returns (r: Outcome<Error>)
      requires Valid() && (channel != null ==> channel.Valid())
      modifies this`subscribed, channel
      ensures channel != null ==> channel.Valid() && channel.written == old(channel.written)
      ensures readonly ==> r == Fail(ReadonlyMode)
      ensures !readonly && channel == null ==> r == Fail(ChannelUnavailable)
      ensures !readonly && channel != null && old(channel.consumed) ==>
                r == Fail(AlreadyConsumed) && channel.consumed && channel.pending == old(channel.pending)
                && subscribed == old(subscribed)
      ensures !readonly && channel != null && !old(channel.consumed) ==>
                r == Pass && channel.consumed && channel.pending == None && subscribed
      ensures readonly || channel == null ==> subscribed == old(subscribed)
    {
      if readonly {
        return Fail(ReadonlyMode);
      }
      if channel == null {
        return Fail(ChannelUnavailable);
      }
      r := channel.Consume();
      if r == Pass {
        subscribed := true;
      }
    }

    /** The dispatch rule for one message: a known sender's message appends exactly
        one task; an unknown sender's is dropped. Earlier tasks are untouched. */
    method Dispatch(m: PeerMessage)
      modifies pendingTasks
      ensures pendingTasks.tasks == old(pendingTasks.tasks) + DispatchOne(nodes, m)
    {
      if m.publicKey in nodes {
        pendingTasks.tasks := pendingTasks.tasks + [Task(nodes[m.publicKey], m.data)];
      }
    }

    /** Chunks arriving on the subscribed channel: the channel pairs them into
        messages and each is dispatched in turn. */
    method Receive(chunks: seq<Bytes>) returns (emitted: seq<PeerMessage>)
      requires Valid() && subscribed && channel != null && channel.Valid() && channel.consumed
      modifies channel`pending, pendingTasks
      ensures channel.Valid()
      ensures emitted == Pairing(old(channel.pending), chunks).0
      ensures channel.pending == Pairing(old(channel.pending), chunks).1
      ensures pendingTasks.tasks == old(pendingTasks.tasks) + Dispatched(nodes, emitted)
    {
      emitted := channel.Feed(chunks);
      DispatchAll(emitted);
    }

    /** The dispatch rule over messages delivered in order. */
    method DispatchAll(msgs: seq<PeerMessage>)
      modifies pendingTasks
      ensures pendingTasks.tasks == old(pendingTasks.tasks) + Dispatched(nodes, msgs)
    {
      for i := 0 to |msgs|
        invariant pendingTasks.tasks == old(pendingTasks.tasks) + Dispatched(nodes, msgs[..i])
      {
        Dispatch(msgs[i]);
        DispatchedSnoc(nodes, msgs[..i], msgs[i]);
        assert msgs[..i + 1] == msgs[..i] + [msgs[i]];
      }
      assert msgs[..|msgs|] == msgs;
    }

    /** Broadcasts `msg` on the NPL channel; throws in readonly mode, without a
        channel, or when the message is over 128 KiB. */
    method Send(msg: Bytes) returns (r: Outcome<Error>)
      requires Valid()
      modifies channel
      ensures channel != null ==> channel.consumed == old(channel.consumed) && channel.pending == old(channel.pending)
      ensures readonly ==> r == Fail(ReadonlyMode)
      ensures !readonly && channel == null ==> r == Fail(ChannelUnavailable)
      ensures !readonly && channel != null && !FitsPacket(msg) ==>
                r == Fail(MessageTooLarge) && channel.written == old(channel.written)
      ensures !readonly && channel != null && FitsPacket(msg) ==>
                r == Pass && channel.written == old(channel.written) + [msg]
    {
      if readonly {
        return Fail(ReadonlyMode);
      }
      if channel == null {
        return Fail(ChannelUnavailable);
      }
      r := channel.Send(msg);
    }
  }
}
