/** The message queue object: fixed nodes threaded on a free list and on a queue with head
    and tail pointers (rt-thread/src/ipc.c).  Each method is one interrupt-disabled section
    or one unlocked copy, and performs the step of `MessageQueueProtocol` its contract
    names.  A node is its index in the pool and `NULL` is -1. */
module MessageQueue {
  import opened IpcThreads
  import opened Lists
  import opened MessageQueueProtocol

  const ENTRY_MAX := 0xffff
  const NULL := -1

  datatype Outcome = Got | Full | Empty | Waits

  /** Following the links from `first` visits exactly the nodes of l, in order. */
  ghost predicate Chain(next: seq<int>, first: int, l: seq<Node>) {
    && first == (if l == [] then NULL else l[0])
    && forall i :: 0 <= i < |l| ==> Linked(next, l, i)
  }

  ghost predicate Linked(next: seq<int>, l: seq<Node>, i: nat)
    requires i < |l|
  {
    l[i] < |next| && next[l[i]] == if i + 1 < |l| then l[i + 1] else NULL
  }

  ghost function Last(l: seq<Node>): int {
    if l == [] then NULL else l[|l| - 1]
  }

  lemma ChainFrame(next: seq<int>, first: int, l: seq<Node>, n: nat, v: int)
    requires Chain(next, first, l) && n !in l && n < |next|
    ensures Chain(next[n := v], first, l)
  {
    var next' := next[n := v];
    forall i | 0 <= i < |l| ensures Linked(next', l, i) {
      assert Linked(next, l, i) && l[i] in l;
    }
  }

  lemma ChainBound(next: seq<int>, first: int, l: seq<Node>)
    requires Chain(next, first, l)
    ensures forall n :: n in l ==> n < |next|
  {
    forall n | n in l ensures n < |next| {
      var i :| 0 <= i < |l| && l[i] == n;
      assert Linked(next, l, i);
    }
  }

  lemma ChainPush(next: seq<int>, first: int, l: seq<Node>, n: nat)
    requires Chain(next, first, l) && n !in l && n < |next|
    ensures Chain(next[n := first], n, [n] + l)
  {
    var next', l' := next[n := first], [n] + l;
    forall i | 0 <= i < |l'| ensures Linked(next', l', i) {
      if i > 0 { assert Linked(next, l, i - 1) && l[i - 1] in l; }
    }
  }

  lemma ChainPop(next: seq<int>, first: int, l: seq<Node>)
    requires Chain(next, first, l) && l != []
    ensures 0 <= first < |next| && Chain(next, next[first], l[1..])
  {
    assert Linked(next, l, 0);
    var l' := l[1..];
    forall i | 0 <= i < |l'| ensures Linked(next, l', i) {
      assert Linked(next, l, i + 1);
    }
  }

  lemma ChainAppend(next: seq<int>, first: int, l: seq<Node>, n: nat)
    requires Chain(next, first, l) && Distinct(l) && n !in l && n < |next| && next[n] == NULL
    ensures l != [] ==> 0 <= Last(l) < |next| && Last(l) in l && Chain(next[Last(l) := n], first, l + [n])
    ensures l == [] ==> Chain(next, n, [n])
  {
    if l != [] {
      assert Linked(next, l, |l| - 1);
      var next', l' := next[Last(l) := n], l + [n];
      forall i | 0 <= i < |l'| ensures Linked(next', l', i) {
        if i < |l| { assert Linked(next, l, i) && l[i] in l; }
      }
    }
  }

  lemma {:induction false} Pigeonhole(l: seq<Node>, n: nat)
    requires Distinct(l) && forall x :: x in l ==> x < n
    ensures |l| <= n
    decreases n
  {
    if l != [] {
      assert l[0] in l;
      if n - 1 in l {
        WithoutMembers(l, n - 1);
        Pigeonhole(Without(l, n - 1), n - 1);
      } else {
        Pigeonhole(l, n - 1);
      }
    }
  }

  class MessageQueue {
    const maxMsgs: nat
    const flag: Flag
    const prio: Tid -> nat
    const next: array<int>
    const data: array<Msg>
    var head: int
    var tail: int
    var free: int
    var entry: nat
    var suspendThread: seq<Tid>
    var suspendSender: seq<Tid>
    var phase: map<Tid, Phase>
    ghost var freeNodes: seq<Node>
    ghost var queueNodes: seq<Node>
    ghost var linked: seq<Msg>
    ghost var detached: seq<Msg>

    ghost function Cfg(): Config { Config(maxMsgs, flag, prio) }

    /** Head and tail are NULL together, and the tail is the last node. */
    ghost predicate LinksOk()
      reads this, next
    {
      && next.Length == data.Length == maxMsgs <= ENTRY_MAX
      && Chain(next[..], free, freeNodes) && Chain(next[..], head, queueNodes)
      && tail == Last(queueNodes)
      && Distinct(freeNodes) && Distinct(queueNodes) && (forall n :: n in freeNodes ==> n !in queueNodes)
    }

    ghost predicate ListsOk()
      reads this, next
    {
      LinksOk() && entry == |queueNodes|
    }

    ghost predicate Apart(n: Node)
      reads this
    {
      n < maxMsgs && n !in freeNodes && n !in queueNodes
    }

    /** Nodes in private hands are on neither list and in no other hands. */
    ghost predicate HandsOk()
      reads this
    {
      && (forall t :: t in phase && phase[t].Holding? ==> Apart(phase[t].node))
      && (forall t, u :: t in phase && u in phase && t != u && phase[t].Holding? && phase[u].Holding? ==>
            phase[t].node != phase[u].node)
    }

    /** What the sections rely on. */
    ghost predicate Ready()
      reads this, next, data
    {
      && ListsOk() && LinksCleared() && HandsOk() && next != data
      && HeadWaits(suspendThread, phase) && HeadWaits(suspendSender, phase)
      && (forall t :: t in phase && phase[t].Holding? ==> t !in suspendThread && t !in suspendSender)
    }

    lemma ValidReady()
      requires Valid()
      ensures Ready()
    {
      MessageQueueProtocol.Ready(Cfg(), View());
    }

    /** A plain sender that has copied left its node's link NULL. */
    ghost predicate LinksCleared()
      reads this, next
    {
      forall t :: t in phase && phase[t].Holding? && phase[t].role == Sender && phase[t].copied && !phase[t].urgent ==>
        phase[t].node < next.Length && next[phase[t].node] == NULL
    }

    ghost function Stored(): map<Node, Msg>
      reads data
    {
      map n: nat | n < data.Length :: data[n]
    }

    ghost function View(): State
      reads this, data
    {
      State(freeNodes, queueNodes, Stored(),
            suspendThread, suspendSender, phase, linked, detached)
    }

    ghost predicate Valid()
      reads this, next, data
    {
      ListsOk() && LinksCleared() && next != data && Inv(Cfg(), View())
    }

    /** `rt_mq_init`: the loop pushes every node on the free list. */
    constructor (maxMsgs: nat, flag: Flag, prio: Tid -> nat, threads: set<Tid>)
      requires maxMsgs <= ENTRY_MAX
      ensures Valid() && Initial(Cfg(), View()) && phase.Keys == threads
      ensures this.maxMsgs == maxMsgs && this.flag == flag && this.prio == prio
    {
      this.maxMsgs, this.flag, this.prio := maxMsgs, flag, prio;
      next := new int[maxMsgs];
      data := new Msg[maxMsgs];
      head, tail, free, entry := NULL, NULL, NULL, 0;
      suspendThread, suspendSender := [], [];
      phase := map t | t in threads :: Running;
      freeNodes, queueNodes, linked, detached := [], [], [], [];
      new;
      var temp := 0;
      while temp < maxMsgs
        invariant temp <= maxMsgs && freeNodes == InitFree(temp)
        invariant Chain(next[..], free, freeNodes) && head == NULL == tail
        invariant next != data
        modifies next, this`free, this`freeNodes
      {
        InitFreeMembers(temp);
        ChainPush(next[..], free, freeNodes, temp);
        next[temp] := free;
        free := temp;
        freeNodes := [temp] + freeNodes;
        temp := temp + 1;
      }
      InitFreeMembers(maxMsgs);
      InitialInv(Cfg(), View());
    }

    // ------------------------------------------------------------- the lists

    method PopFree() returns (msg: Node)
      requires ListsOk() && freeNodes != []
      modifies this`free, this`freeNodes
      ensures ListsOk() && old(freeNodes) == [msg] + freeNodes && Apart(msg)
    {
      ChainPop(next[..], free, freeNodes);
      TailMembers(freeNodes);
      assert freeNodes[0] in freeNodes;
      msg := free;
      free := next[msg];
      freeNodes := freeNodes[1..];
    }

    method PushFree(msg: Node)
      requires LinksOk() && Apart(msg)
      modifies this`free, this`freeNodes, next
      ensures LinksOk() && freeNodes == [msg] + old(freeNodes)
      ensures forall m :: 0 <= m < maxMsgs && m != msg ==> next[m] == old(next[m])
    {
      ChainPush(next[..], free, freeNodes, msg);
      ChainFrame(next[..], head, queueNodes, msg, free);
      ConsMembers(msg, freeNodes);
      next[msg] := free;
      free := msg;
      freeNodes := [msg] + freeNodes;
    }

    method LinkTail(msg: Node)
      requires ListsOk() && Apart(msg) && next[msg] == NULL
      modifies this`head, this`tail, this`entry, this`queueNodes, next
      ensures ListsOk() && queueNodes == old(queueNodes) + [msg]
      ensures forall m: nat :: m < maxMsgs && m !in old(queueNodes) ==> next[m] == old(next[m])
    {
      ChainAppend(next[..], head, queueNodes, msg);
      Room(msg);
      if tail != NULL {
        assert Last(queueNodes) in queueNodes && tail !in freeNodes;
        ChainFrame(next[..], free, freeNodes, tail, msg);
        next[tail] := msg;
      }
      tail := msg;
      if head == NULL {
        head := msg;
      }
      assert entry < ENTRY_MAX;
      entry := entry + 1;
      queueNodes := queueNodes + [msg];
    }

    method LinkHead(msg: Node)
      requires ListsOk() && Apart(msg)
      modifies this`head, this`tail, this`entry, this`queueNodes, next
      ensures ListsOk() && queueNodes == [msg] + old(queueNodes)
      ensures forall m :: 0 <= m < maxMsgs && m != msg ==> next[m] == old(next[m])
    {
      ChainPush(next[..], head, queueNodes, msg);
      ChainFrame(next[..], free, freeNodes, msg, head);
      ConsMembers(msg, queueNodes);
      Room(msg);
      next[msg] := head;
      head := msg;
      if tail == NULL {
        tail := msg;
      }
      assert entry < ENTRY_MAX;
      entry := entry + 1;
      queueNodes := [msg] + queueNodes;
    }

    /** While a context holds a node the count is below the 16-bit limit, so the overflow
        branches of send and urgent send are never taken. */
    lemma Room(msg: Node)
      requires ListsOk() && Apart(msg)
      ensures entry < maxMsgs
    {
      ConsMembers(msg, queueNodes);
      ChainBound(next[..], head, queueNodes);
      Pigeonhole([msg] + queueNodes, maxMsgs);
    }

    /** Take the head off the queue; the count is the caller's business. */
    method DetachHead() returns (msg: Node)
      requires LinksOk() && queueNodes != []
      modifies this`head, this`tail, this`queueNodes
      ensures LinksOk() && old(queueNodes) == [msg] + queueNodes && Apart(msg)
    {
      ChainPop(next[..], head, queueNodes);
      TailMembers(queueNodes);
      assert queueNodes[0] in queueNodes;
      msg := head;
      head := next[msg];
      if tail == msg {
        tail := NULL;
      }
      queueNodes := queueNodes[1..];
    }

    // ------------------------------------------------------------------ send

    /** First section of `rt_mq_send_wait`, from the test of the free list on. */
    method Send(t: Tid, value: Msg, noWait: bool) returns (r: Outcome)
      requires Valid() && MayTry(View(), t, Sender, value)
      modifies this
      ensures Valid() && View() == Step(Cfg(), old(View()), SendOp(t, value, noWait))
      ensures r == if old(freeNodes) != [] then Got else if noWait then Full else Waits
      ensures t in phase && (r == Waits <==> phase[t].Suspended?)
    {
      StepInv(Cfg(), View(), SendOp(t, value, noWait));
      SendExactly(Cfg(), View(), t, value, noWait);
      ValidReady();
      r := SendSection(t, value, noWait);
    }

    method SendSection(t: Tid, value: Msg, noWait: bool) returns (r: Outcome)
      requires Ready() && MayTry(View(), t, Sender, value)
      modifies this
      ensures ListsOk() && LinksCleared() && View() == TrySend(Cfg(), old(View()), t, value, noWait)
      ensures r == if old(freeNodes) != [] then Got else if noWait then Full else Waits
    {
      if free == NULL {
        if noWait {
          phase := phase[t := Running];
          return Full;
        }
        suspendSender := ListSuspend(suspendSender, t, flag, prio);
        phase := phase[t := Suspended(Sender, value)];
        return Waits;
      }
      var msg := PopFree();
      phase := phase[t := Holding(Sender, value, msg, false, false)];
      return Got;
    }

    /** First section of `rt_mq_urgent`. */
    method Urgent(t: Tid, value: Msg) returns (r: Outcome)
      requires Valid() && t in phase && phase[t] == Running
      modifies this
      ensures Valid() && View() == Step(Cfg(), old(View()), UrgentOp(t, value))
      ensures r == if old(freeNodes) != [] then Got else Full
    {
      StepInv(Cfg(), View(), UrgentOp(t, value));
      ValidReady();
      r := UrgentSection(t, value);
    }

    method UrgentSection(t: Tid, value: Msg) returns (r: Outcome)
      requires Ready() && t in phase && phase[t] == Running
      modifies this
      ensures ListsOk() && LinksCleared() && View() == TryUrgent(old(View()), t, value)
      ensures r == if old(freeNodes) != [] then Got else Full
    {
      if free == NULL {
        return Full;
      }
      var msg := PopFree();
      phase := phase[t := Holding(Sender, value, msg, true, false)];
      return Got;
    }

    /** The unlocked part of a send; only the plain one clears the link. */
    method Fill(t: Tid)
      requires Valid() && Enabled(View(), CopyInOp(t))
      modifies this`phase, next, data
      ensures Valid() && View() == Step(Cfg(), old(View()), CopyInOp(t))
    {
      StepInv(Cfg(), View(), CopyInOp(t));
      ValidReady();
      FillSection(t);
    }

    method ClearLink(msg: Node)
      requires ListsOk() && Apart(msg)
      modifies next
      ensures ListsOk() && next[msg] == NULL
      ensures forall m :: 0 <= m < maxMsgs && m != msg ==> next[m] == old(next[m])
    {
      ChainFrame(next[..], free, freeNodes, msg, NULL);
      ChainFrame(next[..], head, queueNodes, msg, NULL);
      next[msg] := NULL;
    }

    method FillSection(t: Tid)
      requires Ready() && Enabled(View(), CopyInOp(t))
      modifies this`phase, next, data
      ensures ListsOk() && LinksCleared() && View() == CopyIn(old(View()), t)
    {
      hide Chain, MayTry, Last;
      var msg := phase[t].node;
      if !phase[t].urgent {
        ClearLink(msg);
      }
      data[msg] := phase[t].value;
      phase := phase[t := phase[t].(copied := true)];
    }

    /** Last section of `rt_mq_send_wait` and `rt_mq_urgent`. */
    method Finish(t: Tid)
      requires Valid() && Enabled(View(), LinkOp(t))
      modifies this, next
      ensures Valid() && View() == Step(Cfg(), old(View()), LinkOp(t))
    {
      StepInv(Cfg(), View(), LinkOp(t));
      ValidReady();
      FinishSection(t);
    }

    /** Urgent messages go to the head, others to the tail. */
    method LinkNode(msg: Node, urgent: bool)
      requires ListsOk() && Apart(msg) && (!urgent ==> next[msg] == NULL)
      modifies this`head, this`tail, this`entry, this`queueNodes, next
      ensures ListsOk() && queueNodes == if urgent then [msg] + old(queueNodes) else old(queueNodes) + [msg]
      ensures forall m: nat :: m < maxMsgs && m != msg && m !in old(queueNodes) ==> next[m] == old(next[m])
    {
      hide LinksOk;
      if urgent {
        LinkHead(msg);
      } else {
        LinkTail(msg);
      }
    }

    method FinishSection(t: Tid)
      requires Ready() && Enabled(View(), LinkOp(t))
      modifies this, next
      ensures ListsOk() && LinksCleared() && View() == Link(old(View()), t)
    {
      hide Chain, Last, Distinct;
      var msg := phase[t].node;
      linked := linked + [phase[t].value];
      LinkNode(msg, phase[t].urgent);
      phase := phase[t := Running];
      ResumeReceiver();
    }

    /** `_ipc_list_resume` on the receivers, when there are any. */
    method ResumeReceiver()
      requires HeadWaits(suspendThread, phase)
      modifies this`suspendThread, this`phase
      ensures suspendThread == Rest(old(suspendThread)) && phase == WakeHead(old(phase), old(suspendThread))
    {
      if suspendThread != [] {
        var first := suspendThread[0];
        suspendThread := suspendThread[1..];
        phase := phase[first := Woken(phase[first].role, phase[first].value, EOK)];
      }
    }

    // --------------------------------------------------------------- receive

    /** First section of `rt_mq_recv`, from the test of `entry` on. */
    method Recv(t: Tid, noWait: bool) returns (r: Outcome)
      requires Valid() && MayTry(View(), t, Receiver, 0)
      modifies this
      ensures Valid() && View() == Step(Cfg(), old(View()), RecvOp(t, noWait))
      ensures r == if old(queueNodes) != [] then Got else if noWait then Empty else Waits
      ensures t in phase && (r == Waits <==> phase[t].Suspended?)
    {
      StepInv(Cfg(), View(), RecvOp(t, noWait));
      RecvExactly(Cfg(), View(), t, noWait);
      ValidReady();
      r := RecvSection(t, noWait);
    }

    method RecvSection(t: Tid, noWait: bool) returns (r: Outcome)
      requires Ready() && MayTry(View(), t, Receiver, 0)
      modifies this
      ensures old(queueNodes) != [] ==> old(queueNodes)[0] in old(Stored())
      ensures ListsOk() && LinksCleared() && View() == TryRecv(Cfg(), old(View()), t, noWait)
      ensures r == if old(queueNodes) != [] then Got else if noWait then Empty else Waits
    {
      hide Last, HeadWaits, Chain;
      if entry == 0 {
        if noWait {
          phase := phase[t := Running];
          return Empty;
        }
        suspendThread := ListSuspend(suspendThread, t, flag, prio);
        phase := phase[t := Suspended(Receiver, 0)];
        return Waits;
      }
      var msg := DetachHead();
      if entry > 0 {
        entry := entry - 1;
      }
      detached := detached + [data[msg]];
      phase := phase[t := Holding(Receiver, data[msg], msg, false, false)];
      return Got;
    }

    /** The unlocked part of a receive: what lands in the caller's buffer is the message
        that was detached. */
    method Fetch(t: Tid) returns (value: Msg)
      requires Valid() && Enabled(View(), CopyOutOp(t))
      modifies this`phase
      ensures Valid() && View() == Step(Cfg(), old(View()), CopyOutOp(t))
      ensures value == old(phase)[t].value
    {
      StepInv(Cfg(), View(), CopyOutOp(t));
      value := data[phase[t].node];
      phase := phase[t := phase[t].(copied := true)];
    }

    /** Last section of `rt_mq_recv`. */
    method GiveBack(t: Tid)
      requires Valid() && Enabled(View(), ReleaseOp(t))
      modifies this, next
      ensures Valid() && View() == Step(Cfg(), old(View()), ReleaseOp(t))
    {
      StepInv(Cfg(), View(), ReleaseOp(t));
      ValidReady();
      GiveBackSection(t);
    }

    method GiveBackSection(t: Tid)
      requires Ready() && Enabled(View(), ReleaseOp(t))
      modifies this, next
      ensures ListsOk() && LinksCleared() && View() == Release(old(View()), t)
    {
      PushFree(phase[t].node);
      phase := phase[t := Running];
      if suspendSender != [] {
        var first := suspendSender[0];
        suspendSender := suspendSender[1..];
        phase := phase[first := Woken(phase[first].role, phase[first].value, EOK)];
      }
    }

    // ---------------------------------------------------- errors, time and reset

    /** The return path of a thread that resumed with an error. */
    method ReturnError(t: Tid) returns (error: int)
      requires Valid() && Enabled(View(), FailOp(t))
      modifies this`phase
      ensures Valid() && View() == Step(Cfg(), old(View()), FailOp(t))
      ensures error == old(phase)[t].error != EOK
    {
      StepInv(Cfg(), View(), FailOp(t));
      error := phase[t].error;
      phase := phase[t := Running];
    }

    /** `_thread_timeout` for a thread suspended on this queue. */
    method ThreadTimeout(t: Tid)
      requires Valid() && Enabled(View(), TimeoutOp(t))
      modifies this
      ensures Valid() && View() == Step(Cfg(), old(View()), TimeoutOp(t))
    {
      StepInv(Cfg(), View(), TimeoutOp(t));
      TimeoutSection(t);
    }

    method TimeoutSection(t: Tid)
      requires t in phase && phase[t].Suspended? && LinksCleared()
      modifies this`suspendThread, this`suspendSender, this`phase
      ensures LinksCleared() && View() == Timeout(old(View()), t)
    {
      if phase[t].role == Receiver {
        suspendThread := Without(suspendThread, t);
      } else {
        suspendSender := Without(suspendSender, t);
      }
      phase := phase[t := Woken(phase[t].role, phase[t].value, ETIMEOUT)];
    }

    /** The reset command of `rt_mq_control`. */
    method Reset()
      requires Valid()
      modifies this, next
      ensures Valid() && View() == Step(Cfg(), old(View()), ResetOp)
    {
      StepInv(Cfg(), View(), ResetOp);
      ValidReady();
      ResetSection();
    }

    method ResetSection()
      requires Ready() && WaitersOk(suspendThread, phase, Receiver) && WaitersOk(suspendSender, phase, Sender)
      modifies this, next
      ensures ListsOk() && LinksCleared() && View() == MessageQueueProtocol.Reset(old(View()))
    {
      ResetHands(View());
      ResumeBoth();
      DrainQueue();
      entry := 0;
    }

    method ResumeBoth()
      requires WaitersOk(suspendThread, phase, Receiver) && WaitersOk(suspendSender, phase, Sender)
      modifies this`suspendThread, this`suspendSender, this`phase
      ensures suspendThread == [] == suspendSender
      ensures phase == ResumeAll(ResumeAll(old(phase), old(suspendThread)), old(suspendSender))
    {
      phase := ResumeEveryone(suspendThread, phase);
      suspendThread := [];
      phase := ResumeEveryone(suspendSender, phase);
      suspendSender := [];
    }

    method DrainQueue()
      requires LinksOk()
      modifies this`head, this`tail, this`free, this`freeNodes, this`queueNodes, next
      ensures LinksOk() && queueNodes == [] && freeNodes == Drain(old(freeNodes), old(queueNodes))
      ensures forall m: nat :: m < maxMsgs && m !in old(queueNodes) ==> next[m] == old(next[m])
    {
      while head != NULL
        invariant LinksOk()
        invariant Drain(freeNodes, queueNodes) == Drain(old(freeNodes), old(queueNodes))
        invariant forall n :: n in queueNodes ==> n in old(queueNodes)
        invariant forall m: nat :: m < maxMsgs && m !in old(queueNodes) ==> next[m] == old(next[m])
        decreases |queueNodes|
      {
        assert queueNodes[0] in queueNodes;
        var msg := DetachHead();
        PushFree(msg);
      }
    }
  }
}
