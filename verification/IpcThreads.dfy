/** What the blocking IPC objects share (rt-thread/src/ipc.c): the queue of suspended
    threads, and where each thread stands in the call it is making.

    Every section the kernel runs with interrupts disabled is one atomic step.  A blocking
    call is several steps, so a context (a thread or an interrupt handler) carries a phase
    that stands for its program counter, its run state and its error code.
 */
module IpcThreads {
  import opened Lists

  const EOK := 0
  const ERROR := -1
  const ETIMEOUT := -2

  type Tid = nat
  type Msg = int

  datatype Flag = Fifo | Prio

  datatype Role = Receiver | Sender

  /** Outside a wait; suspended on an object's queue; resumed but not yet run; or between
      the two critical sections of a message-queue call, holding a node whose contents it
      has or has not copied yet. */
  datatype Phase =
    | Running
    | Suspended(role: Role, value: Msg)
    | Woken(role: Role, value: Msg, error: int)
    | Holding(role: Role, value: Msg, node: nat, urgent: bool, copied: bool)

  // ------------------------------------------------------- the wait queue

  ghost predicate SortedBy(l: seq<Tid>, prio: Tid -> nat) {
    forall i, j :: 0 <= i < j < |l| ==> prio(l[i]) <= prio(l[j])
  }

  /** Where a thread of this priority goes: in front of the first less urgent waiter. */
  function Place(l: seq<Tid>, p: nat, prio: Tid -> nat): (i: nat)
    ensures i <= |l|
  {
    if l == [] || p < prio(l[0]) then 0 else 1 + Place(l[1..], p, prio)
  }

  function Enqueue(l: seq<Tid>, t: Tid, flag: Flag, prio: Tid -> nat): seq<Tid> {
    if flag == Fifo then l + [t]
    else
      var i := Place(l, prio(t), prio);
      l[..i] + [t] + l[i..]
  }

  lemma {:induction false} PlaceExact(l: seq<Tid>, p: nat, prio: Tid -> nat, i: nat)
    requires i <= |l|
    requires forall j :: 0 <= j < i ==> prio(l[j]) <= p
    requires i < |l| ==> p < prio(l[i])
    ensures Place(l, p, prio) == i
    decreases i
  {
    if i > 0 { PlaceExact(l[1..], p, prio, i - 1); }
  }

  lemma {:induction false} PlaceBounds(l: seq<Tid>, p: nat, prio: Tid -> nat)
    ensures var i := Place(l, p, prio);
      && (forall j :: 0 <= j < i ==> prio(l[j]) <= p)
      && (i < |l| ==> p < prio(l[i]))
  {
    if l != [] && p >= prio(l[0]) {
      PlaceBounds(l[1..], p, prio);
      var k := Place(l[1..], p, prio);
      forall j | 0 <= j < k + 1 ensures prio(l[j]) <= p {
        if j > 0 { assert l[j] == l[1..][j - 1]; }
      }
    }
  }

  /** Queueing by priority keeps the queue sorted and is stable: the newcomer goes behind
      every waiter at least as urgent and in front of every less urgent one. */
  lemma EnqueueStable(l: seq<Tid>, t: Tid, prio: Tid -> nat)
    requires SortedBy(l, prio)
    ensures var r := Enqueue(l, t, Prio, prio); var i := Place(l, prio(t), prio);
      && SortedBy(r, prio)
      && r == l[..i] + [t] + l[i..]
      && (forall j :: 0 <= j < i ==> prio(l[j]) <= prio(t))
      && (forall j :: i <= j < |l| ==> prio(t) < prio(l[j]))
  {
    PlaceBounds(l, prio(t), prio);
    var i := Place(l, prio(t), prio);
    forall j | i <= j < |l| ensures prio(t) < prio(l[j]) {
      assert prio(l[i]) <= prio(l[j]);
    }
    InsertSorted(l, t, i, prio);
  }

  lemma InsertSorted(l: seq<Tid>, t: Tid, i: nat, prio: Tid -> nat)
    requires SortedBy(l, prio) && i <= |l|
    requires forall j :: 0 <= j < i ==> prio(l[j]) <= prio(t)
    requires forall j :: i <= j < |l| ==> prio(t) <= prio(l[j])
    ensures SortedBy(l[..i] + [t] + l[i..], prio)
  {
    var r := l[..i] + [t] + l[i..];
    assert forall k :: 0 <= k < |r| ==> r[k] == if k < i then l[k] else if k == i then t else l[k - 1];
  }

  lemma EnqueueMembers(l: seq<Tid>, t: Tid, flag: Flag, prio: Tid -> nat)
    ensures var r := Enqueue(l, t, flag, prio);
      && |r| == |l| + 1
      && (forall x :: x in r <==> x in l || x == t)
      && (Distinct(l) && t !in l ==> Distinct(r))
  {
    var i := if flag == Fifo then |l| else Place(l, prio(t), prio);
    var r := Enqueue(l, t, flag, prio);
    assert r == l[..i] + [t] + l[i..];
    InsertMembers(l, t, i);
  }

  lemma InsertMembers(l: seq<Tid>, t: Tid, i: nat)
    requires i <= |l|
    ensures var r := l[..i] + [t] + l[i..];
      && (forall x :: x in r <==> x in l || x == t)
      && (Distinct(l) && t !in l ==> Distinct(r))
  {
    var r := l[..i] + [t] + l[i..];
    assert l == l[..i] + l[i..];
    forall x ensures x in r <==> x in l || x == t {
      assert x in l <==> x in l[..i] || x in l[i..];
    }
    if Distinct(l) && t !in l {
      forall a, b | 0 <= a < b < |r| ensures r[a] != r[b] {
        var a', b' := if a < i then a else a - 1, if b < i then b else b - 1;
        assert a != i ==> r[a] == l[a'];
        assert b != i ==> r[b] == l[b'];
      }
    }
  }

  /** `_ipc_list_suspend`: the scan for a suitable position. */
  method ListSuspend(l: seq<Tid>, t: Tid, flag: Flag, prio: Tid -> nat) returns (r: seq<Tid>)
    ensures r == Enqueue(l, t, flag, prio)
  {
    if flag == Fifo {
      return l + [t];
    }
    var n := 0;
    while n < |l| && prio(t) >= prio(l[n])
      invariant n <= |l|
      invariant forall j :: 0 <= j < n ==> prio(l[j]) <= prio(t)
    {
      n := n + 1;
    }
    PlaceExact(l, prio(t), prio, n);
    return l[..n] + [t] + l[n..];
  }

  /** Removing a waiter leaves the others in order. */
  lemma {:induction false} WithoutSorted(l: seq<Tid>, t: Tid, prio: Tid -> nat)
    requires SortedBy(l, prio)
    ensures SortedBy(Without(l, t), prio)
    ensures forall x :: x in Without(l, t) ==> x in l
  {
    if l != [] && l[0] != t {
      WithoutSorted(l[1..], t, prio);
      var w := Without(l[1..], t);
      forall j | 0 <= j < |w| ensures prio(l[0]) <= prio(w[j]) {
        assert w[j] in w && w[j] in l[1..];
        var k :| 0 <= k < |l[1..]| && l[1..][k] == w[j];
        assert l[k + 1] == w[j];
      }
    }
  }

  // ------------------------------------- what a call does to a queue, outright

  /** t comes in behind everyone, or, by priority, behind everyone at least as urgent and in
      front of everyone else. */
  ghost predicate Joins(l: seq<Tid>, l': seq<Tid>, t: Tid, flag: Flag, prio: Tid -> nat) {
    if flag == Fifo then l' == l + [t]
    else exists i :: 0 <= i <= |l| && l' == l[..i] + ([t] + l[i..]) && Between(l, i, prio(t), prio)
  }

  ghost predicate Between(l: seq<Tid>, i: nat, p: nat, prio: Tid -> nat)
    requires i <= |l|
  {
    (forall j :: 0 <= j < i ==> prio(l[j]) <= p) && (i < |l| ==> p < prio(l[i]))
  }

  lemma EnqueueJoins(l: seq<Tid>, t: Tid, flag: Flag, prio: Tid -> nat)
    ensures Joins(l, Enqueue(l, t, flag, prio), t, flag, prio)
  {
    if flag == Prio {
      PlaceBounds(l, prio(t), prio);
      var i := Place(l, prio(t), prio);
      assert l[..i] + [t] + l[i..] == l[..i] + ([t] + l[i..]) && Between(l, i, prio(t), prio);
    }
  }

  lemma JoinsMember(l: seq<Tid>, l': seq<Tid>, t: Tid, flag: Flag, prio: Tid -> nat)
    requires Joins(l, l', t, flag, prio)
    ensures t in l'
  {
    if flag == Prio {
      var i :| 0 <= i <= |l| && l' == l[..i] + ([t] + l[i..]) && Between(l, i, prio(t), prio);
      assert l'[i] == t;
    } else {
      assert l'[|l|] == t;
    }
  }

  /** t suspends, and nobody else changes. */
  ghost predicate Suspends(phase: map<Tid, Phase>, phase': map<Tid, Phase>, t: Tid, role: Role, v: Msg) {
    phase' == phase[t := Suspended(role, v)]
  }

  /** t goes on, the first of the queue, if there is one, leaves it and is on its way without
      an error, and nobody else changes. */
  ghost predicate ResumesFirst(phase: map<Tid, Phase>, phase': map<Tid, Phase>, l: seq<Tid>, l': seq<Tid>, t: Tid) {
    && phase'.Keys == phase.Keys && t in phase && phase'[t] == Running
    && (l == [] ==> l' == [])
    && (l != [] ==>
          && l[0] in phase && phase[l[0]].Suspended? && l' == l[1..]
          && phase'[l[0]] == Woken(phase[l[0]].role, phase[l[0]].value, EOK))
    && (forall u :: u in phase && u != t && (l == [] || u != l[0]) ==> phase'[u] == phase[u])
  }

  lemma WakeHeadResumes(phase: map<Tid, Phase>, l: seq<Tid>, t: Tid)
    requires t in phase && t !in l && HeadWaits(l, phase)
    ensures HeadWaits(l, phase[t := Running])
    ensures ResumesFirst(phase, WakeHead(phase[t := Running], l), l, Rest(l), t)
  {
  }

  /** t's time is up: it leaves its queue, which keeps its order, with the error; nobody else
      changes. */
  ghost predicate TimesOut(phase: map<Tid, Phase>, phase': map<Tid, Phase>, l: seq<Tid>, l': seq<Tid>, t: Tid) {
    && t in phase && phase[t].Suspended?
    && phase' == phase[t := Woken(phase[t].role, phase[t].value, ETIMEOUT)]
    && exists i :: 0 <= i < |l| && l[i] == t && l' == l[..i] + l[i + 1..]
  }

  lemma WithoutTimesOut(phase: map<Tid, Phase>, l: seq<Tid>, t: Tid)
    requires t in phase && phase[t].Suspended? && t in l && Distinct(l)
    ensures TimesOut(phase, phase[t := Woken(phase[t].role, phase[t].value, ETIMEOUT)], l, Without(l, t), t)
  {
    var i :| 0 <= i < |l| && l[i] == t;
    WithoutIndex(l, i);
  }

  /** Everyone who waits is resumed with an error, and nobody else changes. */
  ghost predicate AllFail(phase: map<Tid, Phase>, phase': map<Tid, Phase>) {
    && phase'.Keys == phase.Keys
    && forall u :: u in phase ==>
         phase'[u] == if phase[u].Suspended? then Woken(phase[u].role, phase[u].value, ERROR) else phase[u]
  }

  // ------------------------------------------- counting threads on their way

  /** Resumed without error and not yet run: it will look at the object again. */
  ghost predicate OnItsWay(p: Phase, role: Role) {
    p.Woken? && p.role == role && p.error == EOK
  }

  ghost function WokenSet(phase: map<Tid, Phase>, role: Role): set<Tid> {
    set t | t in phase && OnItsWay(phase[t], role)
  }

  ghost function WokenCount(phase: map<Tid, Phase>, role: Role): nat {
    |WokenSet(phase, role)|
  }

  ghost function One(b: bool): int { if b then 1 else 0 }

  /** One thread's change of phase changes the count by what it leaves and enters. */
  lemma CountUpdate(phase: map<Tid, Phase>, t: Tid, q: Phase, role: Role)
    requires t in phase
    ensures WokenCount(phase[t := q], role)
         == WokenCount(phase, role) - One(OnItsWay(phase[t], role)) + One(OnItsWay(q, role))
  {
    var a, b := WokenSet(phase, role), WokenSet(phase[t := q], role);
    if OnItsWay(q, role) { assert b == a + {t}; } else { assert b == a - {t}; }
  }

  ghost predicate WaitersOk(l: seq<Tid>, phase: map<Tid, Phase>, role: Role) {
    && Distinct(l)
    && forall t :: t in l <==> t in phase && phase[t].Suspended? && phase[t].role == role
  }

  /** While someone is suspended on a resource, no more units of it are available than
      there are threads on their way to look for one. */
  ghost predicate NoLostWakeup(waiters: seq<Tid>, available: int, phase: map<Tid, Phase>, role: Role) {
    waiters != [] ==> available <= WokenCount(phase, role)
  }

  ghost predicate HeadWaits(l: seq<Tid>, phase: map<Tid, Phase>) {
    l != [] ==> l[0] in phase && phase[l[0]].Suspended?
  }

  lemma HeadDoesWait(l: seq<Tid>, phase: map<Tid, Phase>, role: Role)
    requires WaitersOk(l, phase, role)
    ensures HeadWaits(l, phase)
  {
    if l != [] { assert l[0] in l; }
  }

  /** `_ipc_list_resume` on a queue, when it is not empty. */
  ghost function WakeHead(phase: map<Tid, Phase>, l: seq<Tid>): map<Tid, Phase>
    requires HeadWaits(l, phase)
  {
    if l == [] then phase else phase[l[0] := Woken(phase[l[0]].role, phase[l[0]].value, EOK)]
  }

  function Rest(l: seq<Tid>): seq<Tid> {
    if l == [] then [] else l[1..]
  }

  /** Resuming the head of a queue takes it off and puts one more thread on its way. */
  lemma WakeHeadEffect(phase: map<Tid, Phase>, l: seq<Tid>, role: Role, l2: seq<Tid>, role2: Role)
    requires WaitersOk(l, phase, role) && WaitersOk(l2, phase, role2) && role != role2
    ensures HeadWaits(l, phase)
    ensures var phase' := WakeHead(phase, l);
      && WaitersOk(Rest(l), phase', role) && WaitersOk(l2, phase', role2)
      && WokenCount(phase', role) == WokenCount(phase, role) + One(l != [])
      && WokenCount(phase', role2) == WokenCount(phase, role2)
  {
    HeadDoesWait(l, phase, role);
    if l != [] {
      assert l[0] in l;
      TailMembers(l);
      CountUpdate(phase, l[0], Woken(phase[l[0]].role, phase[l[0]].value, EOK), role);
      CountUpdate(phase, l[0], Woken(phase[l[0]].role, phase[l[0]].value, EOK), role2);
    }
  }

  /** A thread that was not suspended stays off the queues when it moves on. */
  lemma MoveOnEffect(phase: map<Tid, Phase>, t: Tid, q: Phase, l: seq<Tid>, role: Role)
    requires t in phase && !phase[t].Suspended? && WaitersOk(l, phase, role)
    requires q.Running? || q.Holding?
    ensures t !in l && WaitersOk(l, phase[t := q], role)
    ensures WokenCount(phase[t := q], role) == WokenCount(phase, role) - One(OnItsWay(phase[t], role))
  {
    CountUpdate(phase, t, q, role);
  }

  lemma SuspendEffect(phase: map<Tid, Phase>, t: Tid, v: Msg, flag: Flag, prio: Tid -> nat,
                      l: seq<Tid>, role: Role, l2: seq<Tid>, role2: Role)
    requires t in phase && !phase[t].Suspended? && !OnItsWay(phase[t], role2) && role != role2
    requires WaitersOk(l, phase, role) && WaitersOk(l2, phase, role2)
    ensures var phase' := phase[t := Suspended(role, v)];
      && WaitersOk(Enqueue(l, t, flag, prio), phase', role) && WaitersOk(l2, phase', role2)
      && WokenCount(phase', role2) == WokenCount(phase, role2)
  {
    EnqueueMembers(l, t, flag, prio);
    CountUpdate(phase, t, Suspended(role, v), role2);
  }

  lemma TimeoutEffect(phase: map<Tid, Phase>, t: Tid, l: seq<Tid>, l2: seq<Tid>, role2: Role)
    requires t in phase && phase[t].Suspended? && phase[t].role != role2
    requires WaitersOk(l, phase, phase[t].role) && WaitersOk(l2, phase, role2)
    ensures var phase' := phase[t := Woken(phase[t].role, phase[t].value, ETIMEOUT)];
      && WaitersOk(Without(l, t), phase', phase[t].role) && WaitersOk(l2, phase', role2)
      && WokenCount(phase', phase[t].role) == WokenCount(phase, phase[t].role)
      && WokenCount(phase', role2) == WokenCount(phase, role2)
      && l != []
  {
    var q := Woken(phase[t].role, phase[t].value, ETIMEOUT);
    CountUpdate(phase, t, q, phase[t].role);
    CountUpdate(phase, t, q, role2);
    WithoutMembers(l, t);
  }

  lemma WokenExists(phase: map<Tid, Phase>, role: Role)
    requires WokenCount(phase, role) > 0
    ensures exists t :: t in phase && OnItsWay(phase[t], role)
  {
    var t :| t in WokenSet(phase, role);
  }

  /** `_ipc_list_resume_all`: every waiter resumes with an error. */
  function ResumeAll(phase: map<Tid, Phase>, l: seq<Tid>): (r: map<Tid, Phase>)
    requires forall t :: t in l ==> t in phase && phase[t].Suspended?
    requires Distinct(l)
    ensures r.Keys == phase.Keys
    ensures forall t :: t in phase ==>
      r[t] == if t in l then Woken(phase[t].role, phase[t].value, ERROR) else phase[t]
  {
    if l == [] then phase
    else
      TailMembers(l);
      ResumeAll(phase[l[0] := Woken(phase[l[0]].role, phase[l[0]].value, ERROR)], l[1..])
  }

  /** `_ipc_list_resume_all`: pop and resume until the queue is empty. */
  method ResumeEveryone(waiters: seq<Tid>, phase: map<Tid, Phase>) returns (r: map<Tid, Phase>)
    requires forall t :: t in waiters ==> t in phase && phase[t].Suspended?
    requires Distinct(waiters)
    ensures r == ResumeAll(phase, waiters)
  {
    var l := waiters;
    r := phase;
    while l != []
      invariant Distinct(l) && forall t :: t in l ==> t in r && r[t].Suspended?
      invariant ResumeAll(r, l) == ResumeAll(phase, waiters)
      decreases |l|
    {
      TailMembers(l);
      r := r[l[0] := Woken(r[l[0]].role, r[l[0]].value, ERROR)];
      l := l[1..];
    }
  }
}
