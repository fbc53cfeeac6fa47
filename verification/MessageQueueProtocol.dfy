/** The message queue as a transition system (rt-thread/src/ipc.c).

    Send, urgent send and receive each drop the lock while they copy, so between two
    critical sections a context holds a node that is on neither list.  The copy itself is
    a step of its own here, and any other context may run before, between and after. */
module MessageQueueProtocol {
  import opened IpcThreads
  import opened Lists
  import opened MailOrder

  type Node = nat

  datatype Config = Config(max: nat, flag: Flag, prio: Tid -> nat)

  datatype State = State(free: seq<Node>, queue: seq<Node>, data: map<Node, Msg>,
                         receivers: seq<Tid>, senders: seq<Tid>, phase: map<Tid, Phase>,
                         linked: seq<Msg>, detached: seq<Msg>)

  // ------------------------------------------------------------- invariant

  ghost predicate Holds(phase: map<Tid, Phase>, t: Tid, n: Node) {
    t in phase && phase[t].Holding? && phase[t].node == n
  }

  /** Every node is in exactly one place. */
  ghost predicate NodesOk(c: Config, s: State) {
    && Distinct(s.free) && Distinct(s.queue)
    && (forall n :: n in s.free ==> n < c.max && n !in s.queue)
    && (forall n :: n in s.queue ==> n < c.max)
    && (forall t :: t in s.phase && s.phase[t].Holding? ==>
          s.phase[t].node < c.max && s.phase[t].node !in s.free && s.phase[t].node !in s.queue)
    && (forall t, u :: t in s.phase && u in s.phase && t != u && s.phase[t].Holding? && s.phase[u].Holding? ==>
          s.phase[t].node != s.phase[u].node)
    && (forall n :: 0 <= n < c.max && n !in s.free && n !in s.queue ==> exists t :: Holds(s.phase, t, n))
  }

  /** A copied or detached message stays as it was while its node is in private hands. */
  ghost predicate DataOk(c: Config, s: State) {
    && (forall n: nat :: n < c.max ==> n in s.data)
    && (forall t :: t in s.phase && s.phase[t].Holding? && (s.phase[t].role == Receiver || s.phase[t].copied) ==>
          s.phase[t].node in s.data && s.data[s.phase[t].node] == s.phase[t].value)
  }

  ghost predicate Storage(c: Config, s: State) {
    NodesOk(c, s) && DataOk(c, s)
  }

  ghost predicate Waiting(s: State) {
    && WaitersOk(s.receivers, s.phase, Receiver)
    && WaitersOk(s.senders, s.phase, Sender)
    && NoLostWakeup(s.receivers, |s.queue|, s.phase, Receiver)
    && NoLostWakeup(s.senders, |s.free|, s.phase, Sender)
  }

  ghost predicate Inv(c: Config, s: State) {
    Storage(c, s) && Waiting(s)
  }

  /** The messages in the queue, first to be received first. */
  ghost function Contents(q: seq<Node>, data: map<Node, Msg>): seq<Msg>
    requires forall n :: n in q ==> n in data
  {
    seq(|q|, i requires 0 <= i < |q| => assert q[i] in q; data[q[i]])
  }

  // ----------------------------------------------------------- transitions

  ghost predicate MayTry(s: State, t: Tid, role: Role, v: Msg) {
    t in s.phase && (s.phase[t] == Running || s.phase[t] == Woken(role, v, EOK))
  }

  /** First section of a send: take a free node, or return, or suspend. */
  ghost function TrySend(c: Config, s: State, t: Tid, v: Msg, noWait: bool): State {
    if s.free == [] then
      if noWait then s.(phase := s.phase[t := Running])
      else s.(phase := s.phase[t := Suspended(Sender, v)], senders := Enqueue(s.senders, t, c.flag, c.prio))
    else
      s.(free := s.free[1..], phase := s.phase[t := Holding(Sender, v, s.free[0], false, false)])
  }

  ghost function TryUrgent(s: State, t: Tid, v: Msg): State {
    if s.free == [] then s
    else s.(free := s.free[1..], phase := s.phase[t := Holding(Sender, v, s.free[0], true, false)])
  }

  /** The unlocked copy into the node a sender holds. */
  ghost function CopyIn(s: State, t: Tid): State
    requires t in s.phase && s.phase[t].Holding?
  {
    s.(data := s.data[s.phase[t].node := s.phase[t].value], phase := s.phase[t := s.phase[t].(copied := true)])
  }

  /** Second section of a send: link at the tail, or at the head when urgent, and resume
      the first waiting receiver. */
  ghost function Link(s: State, t: Tid): State
    requires t in s.phase && s.phase[t].Holding? && HeadWaits(s.receivers, s.phase) && t !in s.receivers
  {
    var h := s.phase[t];
    s.(queue := if h.urgent then [h.node] + s.queue else s.queue + [h.node],
       linked := s.linked + [h.value],
       phase := WakeHead(s.phase[t := Running], s.receivers), receivers := Rest(s.receivers))
  }

  /** First section of a receive: detach the head, or return, or suspend. */
  ghost function TryRecv(c: Config, s: State, t: Tid, noWait: bool): State
    requires s.queue != [] ==> s.queue[0] in s.data
  {
    if s.queue == [] then
      if noWait then s.(phase := s.phase[t := Running])
      else s.(phase := s.phase[t := Suspended(Receiver, 0)], receivers := Enqueue(s.receivers, t, c.flag, c.prio))
    else
      var m := s.data[s.queue[0]];
      s.(queue := s.queue[1..], detached := s.detached + [m],
         phase := s.phase[t := Holding(Receiver, m, s.queue[0], false, false)])
  }

  /** The unlocked copy out: the caller's buffer gets what the node holds now. */
  ghost function CopyOut(s: State, t: Tid): (State, Msg)
    requires t in s.phase && s.phase[t].Holding? && s.phase[t].node in s.data
  {
    (s.(phase := s.phase[t := s.phase[t].(copied := true)]), s.data[s.phase[t].node])
  }

  /** Second section of a receive: free the node and resume the first waiting sender. */
  ghost function Release(s: State, t: Tid): State
    requires t in s.phase && s.phase[t].Holding? && HeadWaits(s.senders, s.phase) && t !in s.senders
  {
    s.(free := [s.phase[t].node] + s.free,
       phase := WakeHead(s.phase[t := Running], s.senders), senders := Rest(s.senders))
  }

  ghost function Fail(s: State, t: Tid): State {
    s.(phase := s.phase[t := Running])
  }

  ghost function Timeout(s: State, t: Tid): State
    requires t in s.phase && s.phase[t].Suspended?
  {
    s.(phase := s.phase[t := Woken(s.phase[t].role, s.phase[t].value, ETIMEOUT)],
       receivers := if s.phase[t].role == Receiver then Without(s.receivers, t) else s.receivers,
       senders := if s.phase[t].role == Sender then Without(s.senders, t) else s.senders)
  }

  /** Queued nodes go back to the free list one by one from the head. */
  function Drain(free: seq<Node>, queue: seq<Node>): seq<Node>
    decreases |queue|
  {
    if queue == [] then free else Drain([queue[0]] + free, queue[1..])
  }

  ghost function Reset(s: State): State
    requires WaitersOk(s.receivers, s.phase, Receiver) && WaitersOk(s.senders, s.phase, Sender)
  {
    s.(free := Drain(s.free, s.queue), queue := [], receivers := [], senders := [],
       phase := ResumeAll(ResumeAll(s.phase, s.receivers), s.senders))
  }

  datatype Op =
    | SendOp(t: Tid, v: Msg, noWait: bool)
    | UrgentOp(t: Tid, v: Msg)
    | CopyInOp(t: Tid)
    | LinkOp(t: Tid)
    | RecvOp(t: Tid, noWait: bool)
    | CopyOutOp(t: Tid)
    | ReleaseOp(t: Tid)
    | FailOp(t: Tid)
    | TimeoutOp(t: Tid)
    | ResetOp

  ghost predicate Enabled(s: State, op: Op) {
    match op
    case SendOp(t, v, _) => MayTry(s, t, Sender, v)
    case UrgentOp(t, _) => t in s.phase && s.phase[t] == Running
    case CopyInOp(t) => t in s.phase && s.phase[t].Holding? && s.phase[t].role == Sender && !s.phase[t].copied
    case LinkOp(t) => t in s.phase && s.phase[t].Holding? && s.phase[t].role == Sender && s.phase[t].copied
    case RecvOp(t, _) => MayTry(s, t, Receiver, 0)
    case CopyOutOp(t) => t in s.phase && s.phase[t].Holding? && s.phase[t].role == Receiver && !s.phase[t].copied
    case ReleaseOp(t) => t in s.phase && s.phase[t].Holding? && s.phase[t].role == Receiver && s.phase[t].copied
    case FailOp(t) => t in s.phase && s.phase[t].Woken? && s.phase[t].error != EOK
    case TimeoutOp(t) => t in s.phase && s.phase[t].Suspended?
    case ResetOp => true
  }

  lemma Ready(c: Config, s: State)
    requires Inv(c, s)
    ensures HeadWaits(s.receivers, s.phase) && HeadWaits(s.senders, s.phase)
    ensures s.queue != [] ==> s.queue[0] in s.data
  {
    HeadDoesWait(s.receivers, s.phase, Receiver);
    HeadDoesWait(s.senders, s.phase, Sender);
    if s.queue != [] { assert s.queue[0] in s.queue; }
  }

  ghost function Step(c: Config, s: State, op: Op): State
    requires Inv(c, s) && Enabled(s, op)
  {
    Ready(c, s);
    match op
    case SendOp(t, v, noWait) => TrySend(c, s, t, v, noWait)
    case UrgentOp(t, v) => TryUrgent(s, t, v)
    case CopyInOp(t) => CopyIn(s, t)
    case LinkOp(t) => Link(s, t)
    case RecvOp(t, noWait) => TryRecv(c, s, t, noWait)
    case CopyOutOp(t) => CopyOut(s, t).0
    case ReleaseOp(t) => Release(s, t)
    case FailOp(t) => Fail(s, t)
    case TimeoutOp(t) => Timeout(s, t)
    case ResetOp => Reset(s)
  }

  // ------------------------------------------------------------ invariance

  /** Moving the head of the free list or of the queue into a context's hands. */
  lemma TakeNode(c: Config, s: State, s': State, t: Tid, fromFree: bool)
    requires NodesOk(c, s) && t in s.phase && !s.phase[t].Holding?
    requires if fromFree then s.free != [] && s'.free == s.free[1..] && s'.queue == s.queue
             else s.queue != [] && s'.queue == s.queue[1..] && s'.free == s.free
    requires t in s'.phase && s'.phase == s.phase[t := s'.phase[t]] && s'.phase[t].Holding?
    requires s'.phase[t].node == if fromFree then s.free[0] else s.queue[0]
    ensures NodesOk(c, s')
  {
    var l := if fromFree then s.free else s.queue;
    TailMembers(l);
    assert l[0] in l;
    forall n | 0 <= n < c.max && n !in s'.free && n !in s'.queue ensures exists u :: Holds(s'.phase, u, n) {
      if n == l[0] { assert Holds(s'.phase, t, n); }
      else {
        var u :| Holds(s.phase, u, n);
        assert Holds(s'.phase, u, n);
      }
    }
  }

  /** A context puts the node it holds on one end of the free list or the queue. */
  lemma GiveNode(c: Config, s: State, s': State, t: Tid)
    requires NodesOk(c, s) && t in s.phase && s.phase[t].Holding?
    requires || (s'.free == [s.phase[t].node] + s.free && s'.queue == s.queue)
             || (s'.queue == [s.phase[t].node] + s.queue && s'.free == s.free)
             || (s'.queue == s.queue + [s.phase[t].node] && s'.free == s.free)
    requires s'.phase.Keys == s.phase.Keys && !s'.phase[t].Holding?
    requires forall u :: u in s.phase && u != t ==>
      s'.phase[u] == s.phase[u] || (!s.phase[u].Holding? && !s'.phase[u].Holding?)
    ensures NodesOk(c, s')
  {
    var n0 := s.phase[t].node;
    ConsMembers(n0, s.free);
    ConsMembers(n0, s.queue);
    assert forall x :: x in s.queue + [n0] <==> x in s.queue || x == n0;
    forall n | 0 <= n < c.max && n !in s'.free && n !in s'.queue ensures exists u :: Holds(s'.phase, u, n) {
      var u :| Holds(s.phase, u, n);
      assert u != t;
      assert Holds(s'.phase, u, n);
    }
  }

  /** Steps that leave the lists alone and nobody's hands change. */
  lemma SameNodes(c: Config, s: State, s': State)
    requires NodesOk(c, s) && s'.free == s.free && s'.queue == s.queue && s'.phase.Keys == s.phase.Keys
    requires forall t :: t in s.phase ==>
      if s.phase[t].Holding? then s'.phase[t].Holding? && s'.phase[t].node == s.phase[t].node else !s'.phase[t].Holding?
    ensures NodesOk(c, s')
  {
    forall n | 0 <= n < c.max && n !in s'.free && n !in s'.queue ensures exists t :: Holds(s'.phase, t, n) {
      var t :| Holds(s.phase, t, n);
      assert Holds(s'.phase, t, n);
    }
  }

  lemma SendStorage(c: Config, s: State, t: Tid, v: Msg, noWait: bool)
    requires Storage(c, s) && MayTry(s, t, Sender, v)
    ensures Storage(c, TrySend(c, s, t, v, noWait))
  {
    var s' := TrySend(c, s, t, v, noWait);
    if s.free == [] { SameNodes(c, s, s'); } else { TakeNode(c, s, s', t, true); }
  }

  lemma SendWaiting(c: Config, s: State, t: Tid, v: Msg, noWait: bool)
    requires Waiting(s) && MayTry(s, t, Sender, v)
    ensures Waiting(TrySend(c, s, t, v, noWait))
  {
    var q := if s.free == [] then Running else Holding(Sender, v, s.free[0], false, false);
    MoveOnEffect(s.phase, t, q, s.receivers, Receiver);
    MoveOnEffect(s.phase, t, q, s.senders, Sender);
    if s.free == [] {
      SuspendEffect(s.phase, t, v, c.flag, c.prio, s.senders, Sender, s.receivers, Receiver);
    }
  }

  lemma UrgentInv(c: Config, s: State, t: Tid, v: Msg)
    requires Inv(c, s) && t in s.phase && s.phase[t] == Running
    ensures Inv(c, TryUrgent(s, t, v))
  {
    if s.free != [] {
      var s' := TryUrgent(s, t, v);
      TakeNode(c, s, s', t, true);
      MoveOnEffect(s.phase, t, s'.phase[t], s.receivers, Receiver);
      MoveOnEffect(s.phase, t, s'.phase[t], s.senders, Sender);
    }
  }

  lemma CopyInInv(c: Config, s: State, t: Tid)
    requires Inv(c, s) && Enabled(s, CopyInOp(t))
    ensures Inv(c, CopyIn(s, t))
  {
    var s' := CopyIn(s, t);
    SameNodes(c, s, s');
    MoveOnEffect(s.phase, t, s'.phase[t], s.receivers, Receiver);
    MoveOnEffect(s.phase, t, s'.phase[t], s.senders, Sender);
  }

  lemma LinkWaiting(s: State, t: Tid)
    requires Waiting(s) && Enabled(s, LinkOp(t))
    ensures HeadWaits(s.receivers, s.phase) && t !in s.receivers && Waiting(Link(s, t))
  {
    HeadDoesWait(s.receivers, s.phase, Receiver);
    MoveOnEffect(s.phase, t, Running, s.receivers, Receiver);
    MoveOnEffect(s.phase, t, Running, s.senders, Sender);
    WakeHeadEffect(s.phase[t := Running], s.receivers, Receiver, s.senders, Sender);
  }

  lemma LinkStorage(c: Config, s: State, t: Tid)
    requires Storage(c, s) && Enabled(s, LinkOp(t)) && HeadWaits(s.receivers, s.phase) && t !in s.receivers
    ensures Storage(c, Link(s, t))
  {
    GiveNode(c, s, Link(s, t), t);
  }

  lemma RecvStorage(c: Config, s: State, t: Tid, noWait: bool)
    requires Storage(c, s) && MayTry(s, t, Receiver, 0)
    ensures s.queue != [] ==> s.queue[0] in s.data
    ensures Storage(c, TryRecv(c, s, t, noWait))
  {
    if s.queue != [] { assert s.queue[0] in s.queue; }
    var s' := TryRecv(c, s, t, noWait);
    if s.queue == [] { SameNodes(c, s, s'); } else { TakeNode(c, s, s', t, false); }
  }

  lemma RecvWaiting(c: Config, s: State, t: Tid, noWait: bool)
    requires Waiting(s) && MayTry(s, t, Receiver, 0) && (s.queue != [] ==> s.queue[0] in s.data)
    ensures Waiting(TryRecv(c, s, t, noWait))
  {
    var q := if s.queue == [] then Running else Holding(Receiver, s.data[s.queue[0]], s.queue[0], false, false);
    MoveOnEffect(s.phase, t, q, s.receivers, Receiver);
    MoveOnEffect(s.phase, t, q, s.senders, Sender);
    if s.queue == [] {
      SuspendEffect(s.phase, t, 0, c.flag, c.prio, s.receivers, Receiver, s.senders, Sender);
    }
  }

  lemma CopyOutInv(c: Config, s: State, t: Tid)
    requires Inv(c, s) && Enabled(s, CopyOutOp(t))
    ensures s.phase[t].node in s.data && Inv(c, CopyOut(s, t).0)
  {
    var s' := CopyOut(s, t).0;
    SameNodes(c, s, s');
    MoveOnEffect(s.phase, t, s'.phase[t], s.receivers, Receiver);
    MoveOnEffect(s.phase, t, s'.phase[t], s.senders, Sender);
  }

  lemma ReleaseWaiting(s: State, t: Tid)
    requires Waiting(s) && Enabled(s, ReleaseOp(t))
    ensures HeadWaits(s.senders, s.phase) && t !in s.senders && Waiting(Release(s, t))
  {
    HeadDoesWait(s.senders, s.phase, Sender);
    MoveOnEffect(s.phase, t, Running, s.receivers, Receiver);
    MoveOnEffect(s.phase, t, Running, s.senders, Sender);
    WakeHeadEffect(s.phase[t := Running], s.senders, Sender, s.receivers, Receiver);
  }

  lemma ReleaseStorage(c: Config, s: State, t: Tid)
    requires Storage(c, s) && Enabled(s, ReleaseOp(t)) && HeadWaits(s.senders, s.phase) && t !in s.senders
    ensures Storage(c, Release(s, t))
  {
    GiveNode(c, s, Release(s, t), t);
  }

  lemma TimeoutInv(c: Config, s: State, t: Tid)
    requires Inv(c, s) && t in s.phase && s.phase[t].Suspended?
    ensures Inv(c, Timeout(s, t))
  {
    SameNodes(c, s, Timeout(s, t));
    if s.phase[t].role == Receiver {
      TimeoutEffect(s.phase, t, s.receivers, s.senders, Sender);
    } else {
      TimeoutEffect(s.phase, t, s.senders, s.receivers, Receiver);
    }
  }

  lemma {:induction false} DrainMembers(free: seq<Node>, queue: seq<Node>)
    requires Distinct(free) && Distinct(queue) && forall n :: n in free ==> n !in queue
    ensures Distinct(Drain(free, queue))
    ensures forall n :: n in Drain(free, queue) <==> n in free || n in queue
    decreases |queue|
  {
    if queue != [] {
      TailMembers(queue);
      ConsMembers(queue[0], free);
      assert queue[0] in queue;
      DrainMembers([queue[0]] + free, queue[1..]);
    }
  }

  lemma ResetHands(s: State)
    requires WaitersOk(s.receivers, s.phase, Receiver) && WaitersOk(s.senders, s.phase, Sender)
    ensures Reset(s).phase.Keys == s.phase.Keys
    ensures forall t :: t in s.phase && s.phase[t].Holding? ==> Reset(s).phase[t] == s.phase[t]
    ensures forall t :: t in s.phase && !s.phase[t].Holding? ==> !Reset(s).phase[t].Holding?
  {
  }

  lemma ResetNodes(c: Config, s: State)
    requires Inv(c, s)
    ensures NodesOk(c, Reset(s))
  {
    hide ResumeAll;
    var s' := Reset(s);
    ResetHands(s);
    DrainMembers(s.free, s.queue);
    forall n | 0 <= n < c.max && n !in s'.free && n !in s'.queue ensures exists t :: Holds(s'.phase, t, n) {
      var t :| Holds(s.phase, t, n);
      assert Holds(s'.phase, t, n);
    }
  }

  lemma ResetData(c: Config, s: State)
    requires Inv(c, s)
    ensures DataOk(c, Reset(s))
  {
    ResetHands(s);
  }

  lemma ResetWaiting(s: State)
    requires Waiting(s)
    ensures Waiting(Reset(s))
  {
  }

  /** Every step of every context keeps the invariant. */
  lemma StepInv(c: Config, s: State, op: Op)
    requires Inv(c, s) && Enabled(s, op)
    ensures Inv(c, Step(c, s, op))
  {
    match op
    case SendOp(t, v, noWait) =>
      SendStorage(c, s, t, v, noWait);
      SendWaiting(c, s, t, v, noWait);
    case UrgentOp(t, v) => UrgentInv(c, s, t, v);
    case CopyInOp(t) => CopyInInv(c, s, t);
    case LinkOp(t) =>
      LinkWaiting(s, t);
      LinkStorage(c, s, t);
    case RecvOp(t, noWait) =>
      RecvStorage(c, s, t, noWait);
      RecvWaiting(c, s, t, noWait);
    case CopyOutOp(t) => CopyOutInv(c, s, t);
    case ReleaseOp(t) =>
      ReleaseWaiting(s, t);
      ReleaseStorage(c, s, t);
    case FailOp(t) =>
      SameNodes(c, s, Fail(s, t));
      MoveOnEffect(s.phase, t, Running, s.receivers, Receiver);
      MoveOnEffect(s.phase, t, Running, s.senders, Sender);
    case TimeoutOp(t) => TimeoutInv(c, s, t);
    case ResetOp =>
      ResetNodes(c, s);
      ResetData(c, s);
      ResetWaiting(s);
  }

  // ------------------------------------------------------------ whole runs

  ghost function Run(c: Config, s: State, ops: seq<Op>): State
    requires Inv(c, s)
    decreases |ops|
  {
    if ops == [] then s
    else if Enabled(s, ops[0]) then
      StepInv(c, s, ops[0]);
      Run(c, Step(c, s, ops[0]), ops[1..])
    else Run(c, s, ops[1..])
  }

  lemma {:induction false} RunInv(c: Config, s: State, ops: seq<Op>)
    requires Inv(c, s)
    ensures Inv(c, Run(c, s, ops))
    decreases |ops|
  {
    if ops != [] {
      if Enabled(s, ops[0]) {
        StepInv(c, s, ops[0]);
        RunInv(c, Step(c, s, ops[0]), ops[1..]);
      } else {
        RunInv(c, s, ops[1..]);
      }
    }
  }

  /** The free list `rt_mq_init` builds: each node is pushed in front of the last. */
  function InitFree(n: nat): seq<Node> {
    if n == 0 then [] else [n - 1] + InitFree(n - 1)
  }

  lemma {:induction false} InitFreeMembers(n: nat)
    ensures |InitFree(n)| == n && Distinct(InitFree(n))
    ensures forall x :: x in InitFree(n) <==> 0 <= x < n
  {
    if n > 0 {
      InitFreeMembers(n - 1);
      ConsMembers(n - 1, InitFree(n - 1));
    }
  }

  ghost predicate Initial(c: Config, s: State) {
    && s.free == InitFree(c.max) && s.queue == [] && s.receivers == [] && s.senders == []
    && (forall t :: t in s.phase ==> s.phase[t] == Running)
    && (forall n: nat :: n < c.max ==> n in s.data)
    && s.linked == [] && s.detached == []
  }

  lemma InitialInv(c: Config, s: State)
    requires Initial(c, s)
    ensures Inv(c, s)
  {
    InitFreeMembers(c.max);
  }

  /** After any interleaving from the start, each of the `max` nodes is in exactly one of
      the free list, the queue, or one context's hands; and nobody sleeps while what they
      wait for is there and nobody is on the way to it. */
  lemma NodesConservedEver(c: Config, s0: State, ops: seq<Op>, n: Node)
    requires Initial(c, s0) && n < c.max
    ensures Inv(c, s0)
    ensures var s := Run(c, s0, ops);
      && (n in s.free || n in s.queue || exists t :: Holds(s.phase, t, n))
      && !(n in s.free && n in s.queue)
      && (forall t :: Holds(s.phase, t, n) ==> n !in s.free && n !in s.queue)
      && (forall t, u :: Holds(s.phase, t, n) && Holds(s.phase, u, n) ==> t == u)
  {
    InitialInv(c, s0);
    RunInv(c, s0, ops);
  }

  lemma NoLostWakeupEver(c: Config, s0: State, ops: seq<Op>)
    requires Initial(c, s0)
    ensures Inv(c, s0)
    ensures var s := Run(c, s0, ops);
      && (s.receivers != [] ==> |s.queue| <= WokenCount(s.phase, Receiver))
      && (s.senders != [] ==> |s.free| <= WokenCount(s.phase, Sender))
      && (s.receivers != [] && s.queue != [] ==> exists t :: t in s.phase && OnItsWay(s.phase[t], Receiver))
      && (s.senders != [] && s.free != [] ==> exists t :: t in s.phase && OnItsWay(s.phase[t], Sender))
  {
    InitialInv(c, s0);
    RunInv(c, s0, ops);
    var s := Run(c, s0, ops);
    if s.receivers != [] && s.queue != [] { WokenExists(s.phase, Receiver); }
    if s.senders != [] && s.free != [] { WokenExists(s.phase, Sender); }
  }

  // ------------------------------------------------------ order and contents

  /** What a receiver copies out of its node is the message it detached: no other step can
      have touched the node in between. */
  lemma CopyOutExact(c: Config, s: State, t: Tid)
    requires Inv(c, s) && Enabled(s, CopyOutOp(t))
    ensures s.phase[t].node in s.data && CopyOut(s, t).1 == s.phase[t].value
  {
  }

  ghost function Queued(c: Config, s: State): seq<Msg>
    requires Inv(c, s)
  {
    Contents(s.queue, s.data)
  }

  /** What a step does to the messages in the queue. */
  lemma StepContents(c: Config, s: State, op: Op)
    requires Inv(c, s) && Enabled(s, op)
    ensures Inv(c, Step(c, s, op))
    ensures var q, q' := Queued(c, s), Queued(c, Step(c, s, op));
      match op
      case LinkOp(t) => q' == if s.phase[t].urgent then [s.phase[t].value] + q else q + [s.phase[t].value]
      case RecvOp(t, noWait) => q' == if q == [] then [] else q[1..]
      case ResetOp => q' == []
      case _ => q' == q
  {
    StepInv(c, s, op);
    var s' := Step(c, s, op);
    match op
    case LinkOp(t) => LinkContents(c, s, t);
    case RecvOp(t, noWait) =>
    case CopyInOp(t) => CopyInContents(c, s, t);
    case _ =>
  }

  lemma LinkContents(c: Config, s: State, t: Tid)
    requires Inv(c, s) && Enabled(s, LinkOp(t)) && Inv(c, Step(c, s, LinkOp(t)))
    ensures var q, q' := Queued(c, s), Queued(c, Step(c, s, LinkOp(t)));
      q' == if s.phase[t].urgent then [s.phase[t].value] + q else q + [s.phase[t].value]
  {
  }

  lemma CopyInContents(c: Config, s: State, t: Tid)
    requires Inv(c, s) && Enabled(s, CopyInOp(t)) && Inv(c, Step(c, s, CopyInOp(t)))
    ensures Queued(c, Step(c, s, CopyInOp(t))) == Queued(c, s)
  {
    var s' := Step(c, s, CopyInOp(t));
    forall i | 0 <= i < |s.queue| ensures s.queue[i] in s.data && s'.data[s.queue[i]] == s.data[s.queue[i]] {
      assert s.queue[i] in s.queue;
    }
  }

  /** What an onlooker notes of a step. */
  ghost function Noted(s: State, op: Op, log: Log): Log
    requires Enabled(s, op)
  {
    match op
    case LinkOp(t) => Posted(log, s.phase[t].value, s.phase[t].urgent)
    case RecvOp(t, noWait) => Taken(log)
    case ResetOp => EMPTY
    case _ => log
  }

  ghost function RunLog(c: Config, s: State, ops: seq<Op>, log: Log): Log
    requires Inv(c, s)
    decreases |ops|
  {
    if ops == [] then log
    else if Enabled(s, ops[0]) then
      StepInv(c, s, ops[0]);
      RunLog(c, Step(c, s, ops[0]), ops[1..], Noted(s, ops[0], log))
    else RunLog(c, s, ops[1..], log)
  }

  lemma StepInOrder(c: Config, s: State, op: Op, log: Log)
    requires Inv(c, s) && Enabled(s, op) && InOrder(log, Queued(c, s))
    ensures Inv(c, Step(c, s, op)) && InOrder(Noted(s, op, log), Queued(c, Step(c, s, op)))
  {
    StepContents(c, s, op);
    hide InOrder, Inv, Posted, Taken, Step, Queued;
    match op
    case LinkOp(t) => PostedInOrder(log, Queued(c, s), s.phase[t].value, s.phase[t].urgent);
    case RecvOp(t, noWait) => TakenInOrder(log, Queued(c, s));
    case ResetOp => EmptyInOrder();
    case _ =>
  }

  /** In every run, urgent messages and resets included: since the last reset, the plain
      messages received and the plain ones queued, in this order, are exactly the plain ones
      linked, in the order linked; and urgent ones stand in front. */
  lemma {:induction false} FifoOrder(c: Config, s: State, ops: seq<Op>, log: Log)
    requires Inv(c, s) && InOrder(log, Queued(c, s))
    ensures Inv(c, Run(c, s, ops)) && InOrder(RunLog(c, s, ops, log), Queued(c, Run(c, s, ops)))
    decreases |ops|
  {
    hide InOrder, Inv, Noted, Step, Queued;
    RunInv(c, s, ops);
    if ops != [] {
      if Enabled(s, ops[0]) {
        StepInv(c, s, ops[0]);
        StepInOrder(c, s, ops[0], log);
        FifoOrder(c, Step(c, s, ops[0]), ops[1..], Noted(s, ops[0], log));
      } else {
        FifoOrder(c, s, ops[1..], log);
      }
    }
  }

  /** So it is from the start. */
  lemma FifoEver(c: Config, s0: State, ops: seq<Op>)
    requires Initial(c, s0)
    ensures Inv(c, s0) && Inv(c, Run(c, s0, ops))
    ensures InOrder(RunLog(c, s0, ops, EMPTY), Queued(c, Run(c, s0, ops)))
  {
    InitialInv(c, s0);
    EmptyInOrder();
    assert Queued(c, s0) == [];
    FifoOrder(c, s0, ops, EMPTY);
  }

  ghost predicate NoneUrgent(s: State) {
    forall t :: t in s.phase && s.phase[t].Holding? ==> !s.phase[t].urgent
  }

  lemma StepNoneUrgent(c: Config, s: State, op: Op)
    requires Inv(c, s) && Enabled(s, op) && NoneUrgent(s) && !op.UrgentOp?
    ensures NoneUrgent(Step(c, s, op))
  {
    hide Inv, Storage, Waiting, NoLostWakeup, NodesOk, ResumeAll;
  }

  /** Without urgent messages and resets, all messages are received in the order linked. */
  lemma {:induction false} PlainRunOrder(c: Config, s: State, ops: seq<Op>)
    requires Inv(c, s) && s.linked == s.detached + Queued(c, s) && NoneUrgent(s)
    requires forall i :: 0 <= i < |ops| ==> !ops[i].UrgentOp? && !ops[i].ResetOp?
    ensures var s' := Run(c, s, ops); Inv(c, s') && s'.linked == s'.detached + Queued(c, s')
    decreases |ops|
  {
    hide Inv, Step, Queued, NoneUrgent;
    if ops != [] {
      if Enabled(s, ops[0]) {
        StepContents(c, s, ops[0]);
        StepRecord(c, s, ops[0]);
        StepNoneUrgent(c, s, ops[0]);
        PlainStepOrder(c, s, ops[0]);
        PlainRunOrder(c, Step(c, s, ops[0]), ops[1..]);
      } else {
        PlainRunOrder(c, s, ops[1..]);
      }
    }
  }

  lemma PlainStepOrder(c: Config, s: State, op: Op)
    requires Inv(c, s) && Enabled(s, op) && s.linked == s.detached + Queued(c, s) && NoneUrgent(s)
    requires !op.UrgentOp? && !op.ResetOp?
    ensures var s' := Step(c, s, op); Inv(c, s') && s'.linked == s'.detached + Queued(c, s')
  {
    hide Inv, Step, Queued, Contents, MayTry;
    StepContents(c, s, op);
    StepRecord(c, s, op);
    var q := Queued(c, s);
    if op.RecvOp? && q != [] { assert q == [q[0]] + q[1..]; }
  }

  ghost predicate Conserved(c: Config, s: State)
    requires Inv(c, s)
  {
    multiset(s.linked) == multiset(s.detached) + multiset(Queued(c, s))
  }

  lemma Drawn(linked: seq<Msg>, detached: seq<Msg>, q: seq<Msg>)
    requires multiset(linked) == multiset(detached) + multiset(q) && q != []
    ensures multiset(linked + []) == multiset(detached + [q[0]]) + multiset(q[1..])
  {
    assert linked + [] == linked && q == [q[0]] + q[1..];
  }

  lemma StepConserved(c: Config, s: State, op: Op)
    requires Inv(c, s) && Enabled(s, op) && !op.ResetOp? && Conserved(c, s)
    ensures Inv(c, Step(c, s, op)) && Conserved(c, Step(c, s, op))
  {
    hide Inv, Step, Queued;
    StepContents(c, s, op);
    StepRecord(c, s, op);
    var s' := Step(c, s, op);
    var q, q' := Queued(c, s), Queued(c, s');
    if op.LinkOp? {
      Counted(s.linked, s.detached, q, q', s.phase[op.t].value);
    } else if op.RecvOp? && q != [] {
      Drawn(s.linked, s.detached, q);
    } else {
      assert s'.linked == s.linked && s'.detached == s.detached && q' == q;
    }
  }

  lemma Counted(linked: seq<Msg>, detached: seq<Msg>, q: seq<Msg>, q': seq<Msg>, v: Msg)
    requires multiset(linked) == multiset(detached) + multiset(q) && (q' == [v] + q || q' == q + [v])
    ensures multiset(linked + [v]) == multiset(detached) + multiset(q')
  {
  }

  /** What a step adds to the record of messages linked and detached. */
  lemma StepRecord(c: Config, s: State, op: Op)
    requires Inv(c, s) && Enabled(s, op)
    ensures var s', q := Step(c, s, op), Queued(c, s);
      && s'.linked == s.linked + (if op.LinkOp? then [s.phase[op.t].value] else [])
      && s'.detached == s.detached + (if op.RecvOp? && q != [] then [q[0]] else [])
  {
    hide Inv, Queued, WakeHead, ResumeAll, Drain, Enqueue, Without, HeadWaits, WaitersOk, MayTry;
    match op
    case RecvOp(t, noWait) => FirstQueued(c, s);
    case LinkOp(t) =>
    case _ =>
  }

  lemma FirstQueued(c: Config, s: State)
    requires Inv(c, s)
    ensures Queued(c, s) == [] <==> s.queue == []
    ensures s.queue != [] ==> s.queue[0] in s.data && Queued(c, s)[0] == s.data[s.queue[0]]
  {
    Ready(c, s);
  }

  /** Without a reset nothing is lost or duplicated, urgent messages included: what was linked
      is what was received and what is queued. */
  lemma {:induction false} MessagesConserved(c: Config, s: State, ops: seq<Op>)
    requires Inv(c, s) && Conserved(c, s)
    requires forall i :: 0 <= i < |ops| ==> !ops[i].ResetOp?
    ensures Inv(c, Run(c, s, ops)) && Conserved(c, Run(c, s, ops))
    decreases |ops|
  {
    hide Inv, Step, Conserved;
    if ops != [] {
      if Enabled(s, ops[0]) {
        StepInv(c, s, ops[0]);
        StepConserved(c, s, ops[0]);
        MessagesConserved(c, Step(c, s, ops[0]), ops[1..]);
      } else {
        MessagesConserved(c, s, ops[1..]);
      }
    }
  }

  /** An urgent message goes in front of everything queued. */
  lemma UrgentFirst(c: Config, s: State, t: Tid)
    requires Inv(c, s) && Enabled(s, LinkOp(t)) && s.phase[t].urgent
    ensures var s' := Step(c, s, LinkOp(t));
      && Inv(c, s')
      && Contents(s'.queue, s'.data) == [s.phase[t].value] + Contents(s.queue, s.data)
  {
    StepInv(c, s, LinkOp(t));
    var s' := Step(c, s, LinkOp(t));
    var a, b := Contents(s.queue, s.data), Contents(s'.queue, s'.data);
    forall i | 0 <= i < |b| ensures b[i] == ([s.phase[t].value] + a)[i] {
      if i > 0 { assert s'.queue[i] == s.queue[i - 1]; }
    }
  }

  // ------------------------------------------------- what each call does, outright

  /** A send without a free node returns at once, or waits if it may; otherwise it leaves with
      the first free node in hand and its message beside it. */
  lemma SendExactly(c: Config, s: State, t: Tid, v: Msg, noWait: bool)
    requires Inv(c, s) && Enabled(s, SendOp(t, v, noWait))
    ensures var s' := Step(c, s, SendOp(t, v, noWait));
      if s.free != [] then
        && s.free == [s.free[0]] + s'.free && s' == s.(free := s'.free, phase := s'.phase)
        && s'.phase == s.phase[t := Holding(Sender, v, s.free[0], false, false)]
      else
        && s' == s.(phase := s'.phase, senders := s'.senders)
        && if noWait then s'.phase == s.phase[t := Running] && s'.senders == s.senders
           else Suspends(s.phase, s'.phase, t, Sender, v) && Joins(s.senders, s'.senders, t, c.flag, c.prio)
    ensures var s' := Step(c, s, SendOp(t, v, noWait));
      && t in s'.phase && (s'.phase[t].Suspended? <==> s.free == [] && !noWait)
      && (t in s'.senders <==> s.free == [] && !noWait)
  {
    EnqueueJoins(s.senders, t, c.flag, c.prio);
    if s.free == [] && !noWait { JoinsMember(s.senders, Enqueue(s.senders, t, c.flag, c.prio), t, c.flag, c.prio); }
  }

  /** A receive from an empty queue returns at once, or waits if it may; otherwise it leaves
      with the first node in hand and knows its message. */
  lemma RecvExactly(c: Config, s: State, t: Tid, noWait: bool)
    requires Inv(c, s) && Enabled(s, RecvOp(t, noWait))
    ensures var s' := Step(c, s, RecvOp(t, noWait));
      if s.queue != [] then
        var n := s.queue[0];
        && n in s.data && s.queue == [n] + s'.queue && s'.detached == s.detached + [s.data[n]]
        && s' == s.(queue := s'.queue, detached := s'.detached, phase := s'.phase)
        && s'.phase == s.phase[t := Holding(Receiver, s.data[n], n, false, false)]
      else
        && s' == s.(phase := s'.phase, receivers := s'.receivers)
        && if noWait then s'.phase == s.phase[t := Running] && s'.receivers == s.receivers
           else Suspends(s.phase, s'.phase, t, Receiver, 0) && Joins(s.receivers, s'.receivers, t, c.flag, c.prio)
    ensures var s' := Step(c, s, RecvOp(t, noWait));
      && t in s'.phase && (s'.phase[t].Suspended? <==> s.queue == [] && !noWait)
      && (t in s'.receivers <==> s.queue == [] && !noWait)
  {
    Ready(c, s);
    EnqueueJoins(s.receivers, t, c.flag, c.prio);
    if s.queue == [] && !noWait {
      JoinsMember(s.receivers, Enqueue(s.receivers, t, c.flag, c.prio), t, c.flag, c.prio);
    }
  }

  /** An urgent send without a free node does nothing, and never waits. */
  lemma UrgentExactly(c: Config, s: State, t: Tid, v: Msg)
    requires Inv(c, s) && Enabled(s, UrgentOp(t, v))
    ensures var s' := Step(c, s, UrgentOp(t, v));
      if s.free == [] then s' == s
      else
        && s.free == [s.free[0]] + s'.free && s' == s.(free := s'.free, phase := s'.phase)
        && s'.phase == s.phase[t := Holding(Sender, v, s.free[0], true, false)]
  {
  }

  /** The copies touch only the node in hand. */
  lemma CopyExactly(c: Config, s: State, t: Tid)
    requires Inv(c, s)
    ensures Enabled(s, CopyInOp(t)) ==>
      Step(c, s, CopyInOp(t)) == s.(data := s.data[s.phase[t].node := s.phase[t].value],
                                    phase := s.phase[t := s.phase[t].(copied := true)])
    ensures Enabled(s, CopyOutOp(t)) ==>
      Step(c, s, CopyOutOp(t)) == s.(phase := s.phase[t := s.phase[t].(copied := true)])
  {
  }

  /** Linking puts the node at the end or, urgent, in front, and resumes the first waiting
      receiver; giving back makes it the first free one and resumes the first waiting sender. */
  lemma FinishExactly(c: Config, s: State, t: Tid)
    requires Inv(c, s)
    ensures Enabled(s, LinkOp(t)) ==>
      var s', n := Step(c, s, LinkOp(t)), s.phase[t].node;
      && s'.queue == (if s.phase[t].urgent then [n] + s.queue else s.queue + [n])
      && s'.linked == s.linked + [s.phase[t].value]
      && s' == s.(queue := s'.queue, linked := s'.linked, phase := s'.phase, receivers := s'.receivers)
      && ResumesFirst(s.phase, s'.phase, s.receivers, s'.receivers, t)
    ensures Enabled(s, ReleaseOp(t)) ==>
      var s' := Step(c, s, ReleaseOp(t));
      && s'.free == [s.phase[t].node] + s.free
      && s' == s.(free := s'.free, phase := s'.phase, senders := s'.senders)
      && ResumesFirst(s.phase, s'.phase, s.senders, s'.senders, t)
  {
    hide NodesOk, DataOk, NoLostWakeup;
    Ready(c, s);
    if Enabled(s, LinkOp(t)) { WakeHeadResumes(s.phase, s.receivers, t); }
    if Enabled(s, ReleaseOp(t)) { WakeHeadResumes(s.phase, s.senders, t); }
  }

  /** A suspended thread whose time is up, and one that returns its error. */
  lemma EndsExactly(c: Config, s: State, t: Tid)
    requires Inv(c, s)
    ensures Enabled(s, TimeoutOp(t)) ==>
      var s' := Step(c, s, TimeoutOp(t));
      && s' == s.(phase := s'.phase, receivers := s'.receivers, senders := s'.senders)
      && if s.phase[t].role == Receiver
         then s'.senders == s.senders && TimesOut(s.phase, s'.phase, s.receivers, s'.receivers, t)
         else s'.receivers == s.receivers && TimesOut(s.phase, s'.phase, s.senders, s'.senders, t)
    ensures Enabled(s, FailOp(t)) ==> Step(c, s, FailOp(t)) == s.(phase := s.phase[t := Running])
  {
    hide NodesOk, DataOk, NoLostWakeup, ResumeAll, Drain, TimesOut, Distinct;
    if Enabled(s, TimeoutOp(t)) {
      WithoutTimesOut(s.phase, if s.phase[t].role == Receiver then s.receivers else s.senders, t);
    }
  }

  /** A reset: the queue is empty, its nodes are free again, the last one first, and everyone
      who waited fails. */
  lemma ResetExactly(c: Config, s: State)
    requires Inv(c, s)
    ensures var s' := Step(c, s, ResetOp);
      && s'.queue == [] && s'.receivers == [] && s'.senders == [] && AllFail(s.phase, s'.phase)
      && FreedFrom(s.free, s'.free, s.queue)
      && s'.data == s.data && s'.linked == s.linked && s'.detached == s.detached
  {
    hide NodesOk, DataOk, NoLostWakeup, Drain, Distinct, FreedFrom;
    Drained(s.free, s.queue);
  }

  /** The free list with the queue's nodes in front of it, the last one first. */
  ghost predicate FreedFrom(free: seq<Node>, free': seq<Node>, queue: seq<Node>) {
    && |free'| == |queue| + |free| && free'[|queue|..] == free
    && forall k :: 0 <= k < |queue| ==> free'[k] == queue[|queue| - 1 - k]
  }

  lemma {:induction false} Drained(free: seq<Node>, queue: seq<Node>)
    ensures FreedFrom(free, Drain(free, queue), queue)
    decreases |queue|
  {
    if queue != [] {
      var r, n := Drain([queue[0]] + free, queue[1..]), |queue|;
      Drained([queue[0]] + free, queue[1..]);
      assert r[n - 1..][0] == queue[0] && r[n..] == r[n - 1..][1..] == free;
    }
  }
}
