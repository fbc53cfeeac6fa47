/** The uniprocessor scheduler (rt-thread/src/scheduler.c, rt-thread/src/thread.c): a queue
    per priority, lower numbers more urgent, and one current thread. */
module SchedulerSpec {
  import opened Lists
  import Alignment

  type Tid = nat

  datatype Stat = Init | Ready | Suspended | Running | Closed

  /** `yielding` is the flag a yield or a used-up time slice leaves for the next schedule. */
  datatype Thread = Thread(stat: Stat, yielding: bool, prio: nat)

  datatype State = State(threads: map<Tid, Thread>, queues: seq<seq<Tid>>, current: Tid, lockNest: nat)

  // ------------------------------------------------------------- the invariant

  /** Whoever is on a queue is a thread of its priority. */
  ghost predicate Known(s: State) {
    forall p, t :: 0 <= p < |s.queues| && t in s.queues[p] ==> t in s.threads && s.threads[t].prio == p
  }

  /** The queue of each priority holds exactly the ready threads of that priority. */
  ghost predicate Queued(s: State): (r: bool)
    ensures r ==> Known(s)
  {
    && (forall p :: 0 <= p < |s.queues| ==> Distinct(s.queues[p]))
    && (forall p, t :: 0 <= p < |s.queues| ==>
          (t in s.queues[p] <==> t in s.threads && s.threads[t].stat == Ready && s.threads[t].prio == p))
  }

  ghost predicate Inv(s: State) {
    && Queued(s) && |s.queues| <= 256
    && (forall t :: t in s.threads ==> s.threads[t].prio < |s.queues|)
    && s.current in s.threads && !s.threads[s.current].stat.Ready? && !s.threads[s.current].stat.Init?
    && (forall t :: t in s.threads && s.threads[t].stat == Running ==> t == s.current)
  }

  // ------------------------------------------------------------ the operations

  /** `rt_schedule_insert_thread`: the current thread just keeps running. */
  function Insert(s: State, t: Tid): State
    requires t in s.threads && s.threads[t].prio < |s.queues|
  {
    if t == s.current then s.(threads := s.threads[t := s.threads[t].(stat := Running)])
    else
      var p := s.threads[t].prio;
      s.(threads := s.threads[t := s.threads[t].(stat := Ready)], queues := s.queues[p := s.queues[p] + [t]])
  }

  /** `rt_schedule_remove_thread`, for threads that are queued and for others. */
  function Remove(s: State, t: Tid): State
    requires t in s.threads && s.threads[t].prio < |s.queues|
  {
    var p := s.threads[t].prio;
    s.(queues := s.queues[p := Without(s.queues[p], t)])
  }

  function SetStat(s: State, t: Tid, stat: Stat): State
    requires t in s.threads
  {
    s.(threads := s.threads[t := s.threads[t].(stat := stat)])
  }

  /** The most urgent priority with a waiting thread, or the number of priorities. */
  function Top(queues: seq<seq<Tid>>): (p: nat)
    ensures p <= |queues| && (p < |queues| ==> queues[p] != [])
    ensures forall r :: 0 <= r < p ==> queues[r] == []
  {
    if queues == [] then 0 else if queues[0] != [] then 0 else
      assert forall r :: 1 <= r < |queues| ==> queues[r] == queues[1..][r - 1];
      1 + Top(queues[1..])
  }

  /** Whether the current thread goes on running although others are ready. */
  predicate Stays(c: Thread, top: nat) {
    c.stat == Running && (c.prio < top || (c.prio == top && !c.yielding))
  }

  /** `rt_schedule`. */
  function Schedule(s: State): State
    requires s.current in s.threads && s.threads[s.current].prio < |s.queues| && Known(s)
  {
    var top := Top(s.queues);
    if s.lockNest != 0 || top == |s.queues| then s
    else
      var c := s.threads[s.current];
      if Stays(c, top) then
        s.(threads := s.threads[s.current := c.(yielding := false)])
      else
        var to := s.queues[top][0];
        var preempts := c.stat == Running && to != s.current;
        var s1 := s.(threads := if c.stat == Running then s.threads[s.current := c.(yielding := false)] else s.threads,
                     current := to);
        var s2 := if preempts then Insert(s1, s.current) else s1;
        SetStat(Remove(s2, to), to, Running)
  }

  datatype Op =
    | StartupOp(t: Tid)
    | SuspendOp
    | ResumeOp(t: Tid)
    | CloseOp
    | YieldOp
    | ChangePriorityOp(t: Tid, prio: nat)
    | ScheduleOp
    | EnterOp
    | ExitOp

  ghost predicate Enabled(s: State, op: Op) {
    match op
    case StartupOp(t) => t in s.threads && s.threads[t].stat == Init
    case SuspendOp => s.current in s.threads
    case ResumeOp(t) => t in s.threads
    case CloseOp => s.current in s.threads && s.threads[s.current].stat == Running
    case YieldOp => s.current in s.threads
    case ChangePriorityOp(t, prio) => t in s.threads && s.threads[t].stat != Init && prio < |s.queues|
    case ScheduleOp => true
    case EnterOp => true
    case ExitOp => true
  }

  /** `rt_thread_resume`: only a suspended thread. */
  function Resume(s: State, t: Tid): State
    requires t in s.threads && s.threads[t].prio < |s.queues|
  {
    if s.threads[t].stat != Suspended then s else Insert(s, t)
  }

  /** `rt_thread_suspend` of the thread itself: only while running. */
  function Suspend(s: State): State
    requires s.current in s.threads && s.threads[s.current].prio < |s.queues|
  {
    if s.threads[s.current].stat == Running then SetStat(Remove(s, s.current), s.current, Suspended) else s
  }

  /** The CHANGE_PRIORITY command: a ready thread moves to the end of its new queue. */
  function ChangePriority(s: State, t: Tid, prio: nat): State
    requires t in s.threads && s.threads[t].prio < |s.queues| && prio < |s.queues|
  {
    if s.threads[t].stat == Ready then
      var s1 := Remove(s, t);
      Insert(s1.(threads := s1.threads[t := s1.threads[t].(prio := prio)]), t)
    else s.(threads := s.threads[t := s.threads[t].(prio := prio)])
  }

  function Step(s: State, op: Op): State
    requires Inv(s) && Enabled(s, op)
  {
    match op
    case StartupOp(t) => Resume(SetStat(s, t, Suspended), t)
    case SuspendOp => Suspend(s)
    case ResumeOp(t) => Resume(s, t)
    case CloseOp => SetStat(Remove(s, s.current), s.current, Closed)
    case YieldOp => s.(threads := s.threads[s.current := s.threads[s.current].(yielding := true)])
    case ChangePriorityOp(t, prio) => ChangePriority(s, t, prio)
    case ScheduleOp => Schedule(s)
    case EnterOp => s.(lockNest := s.lockNest + 1)
    case ExitOp => s.(lockNest := if s.lockNest > 0 then s.lockNest - 1 else 0)
  }

  // --------------------------------------------------------------- invariance

  lemma QueuedUpdate(s: State, s': State, t: Tid, p: nat, q: seq<Tid>)
    requires Queued(s) && t in s.threads && p < |s.queues| && s'.queues == s.queues[p := q]
    requires s'.threads.Keys == s.threads.Keys
    requires forall u :: u in s.threads && u != t ==>
      s'.threads[u].stat == s.threads[u].stat && s'.threads[u].prio == s.threads[u].prio
    requires Distinct(q) && forall u :: u in q <==>
      (u in s.queues[p] && u != t) || (u == t && s'.threads[t].stat == Ready && s'.threads[t].prio == p)
    requires s.threads[t].stat == Ready ==> s.threads[t].prio == p
    requires s'.threads[t].stat == Ready ==> s'.threads[t].prio == p
    ensures Queued(s')
  {
  }

  lemma AppendMembers(l: seq<Tid>, t: Tid)
    requires Distinct(l) && t !in l
    ensures Distinct(l + [t]) && forall u :: u in l + [t] <==> u in l || u == t
  {
  }

  /** Inserting a thread that is neither ready nor running. */
  lemma InsertQueued(s: State, t: Tid)
    requires Inv(s) && t in s.threads && s.threads[t].stat != Ready
    ensures Inv(Insert(s, t))
  {
    if t != s.current {
      var p := s.threads[t].prio;
      AppendMembers(s.queues[p], t);
      QueuedUpdate(s, Insert(s, t), t, p, s.queues[p] + [t]);
    }
  }

  /** Taking a thread off its queue and giving it another state. */
  lemma RemoveQueued(s: State, t: Tid, stat: Stat)
    requires Queued(s) && t in s.threads && s.threads[t].prio < |s.queues| && stat != Ready
    ensures Queued(SetStat(Remove(s, t), t, stat))
  {
    var p := s.threads[t].prio;
    WithoutAny(s.queues[p], t);
    QueuedUpdate(s, SetStat(Remove(s, t), t, stat), t, p, Without(s.queues[p], t));
  }

  lemma HeadReady(s: State, p: nat)
    requires Queued(s) && p < |s.queues| && s.queues[p] != []
    ensures var to := s.queues[p][0]; to in s.threads && s.threads[to].stat == Ready && s.threads[to].prio == p
  {
    assert s.queues[p][0] in s.queues[p];
  }

  lemma OtherCurrent(s: State, to: Tid)
    requires Queued(s)
    ensures Queued(s.(current := to))
  {
  }

  /** The running thread, preempted, goes to the end of its queue. */
  lemma PreemptQueued(s: State, s1: State)
    requires Inv(s) && s.threads[s.current].stat == Running && s1.current != s.current
    requires s1 == s.(threads := s.threads[s.current := s.threads[s.current].(yielding := false)],
                      current := s1.current)
    ensures Queued(Insert(s1, s.current))
  {
    hide Distinct;
    var p := s.threads[s.current].prio;
    AppendMembers(s.queues[p], s.current);
    QueuedUpdate(s, Insert(s1, s.current), s.current, p, s.queues[p] + [s.current]);
  }

  /** What a schedule comes to when another thread takes over. */
  lemma SwitchInv(s: State)
    requires Inv(s) && s.lockNest == 0 && Top(s.queues) < |s.queues| && !Stays(s.threads[s.current], Top(s.queues))
    ensures var to := s.queues[Top(s.queues)][0]; var s' := Schedule(s);
      && Inv(s') && s'.current == to != s.current && s'.threads[to].stat == Running && s'.threads.Keys == s.threads.Keys
      && s'.threads[to].prio == Top(s.queues)
  {
    hide Distinct, Without, Queued, Top;
    var top := Top(s.queues);
    var to := s.queues[top][0];
    var c := s.threads[s.current];
    HeadReady(s, top);
    if c.stat == Running {
      var s1 := s.(threads := s.threads[s.current := c.(yielding := false)], current := to);
      PreemptQueued(s, s1);
      RemoveQueued(Insert(s1, s.current), to, Running);
    } else {
      OtherCurrent(s, to);
      RemoveQueued(s.(current := to), to, Running);
    }
  }

  lemma StaysInv(s: State)
    requires Inv(s) && (s.lockNest != 0 || Top(s.queues) == |s.queues| || Stays(s.threads[s.current], Top(s.queues)))
    ensures Inv(Schedule(s)) && Schedule(s).current == s.current && Schedule(s).queues == s.queues
    ensures Schedule(s).threads.Keys == s.threads.Keys
  {
  }

  lemma PriorityQueued(s: State, t: Tid, prio: nat)
    requires Queued(s) && t in s.threads && s.threads[t].stat != Ready
    ensures Queued(s.(threads := s.threads[t := s.threads[t].(prio := prio)]))
  {
    hide Distinct;
  }

  lemma ChangeReadyIs(s: State, t: Tid, prio: nat)
    requires t in s.threads && s.threads[t].stat == Ready && s.threads[t].prio < |s.queues| && prio < |s.queues|
    ensures var s1 := SetStat(Remove(s, t), t, Suspended);
      ChangePriority(s, t, prio) == Insert(s1.(threads := s1.threads[t := s1.threads[t].(prio := prio)]), t)
  {
    hide Without;
    var s1 := SetStat(Remove(s, t), t, Suspended);
    var s2 := s1.(threads := s1.threads[t := s1.threads[t].(prio := prio)]);
    assert Insert(s2, t).threads == ChangePriority(s, t, prio).threads;
  }

  /** A schedule changes nobody's priority, and starts nobody. */
  lemma ScheduleThreads(s: State)
    requires Inv(s)
    ensures var s' := Schedule(s);
      && s'.threads.Keys == s.threads.Keys
      && forall t :: t in s.threads ==>
           s'.threads[t].prio == s.threads[t].prio && (s'.threads[t].stat.Init? <==> s.threads[t].stat.Init?)
  {
    hide Queued, Top, Without, Known;
    if Top(s.queues) < |s.queues| { HeadReady(s, Top(s.queues)); }
  }

  /** A ready thread whose priority changes moves from its old queue to its new one. */
  lemma ChangePriorityInv(s: State, t: Tid, prio: nat)
    requires Inv(s) && Enabled(s, ChangePriorityOp(t, prio))
    ensures Inv(ChangePriority(s, t, prio))
  {
    hide Queued;
    if s.threads[t].stat == Ready {
      RemoveQueued(s, t, Suspended);
      var s1 := SetStat(Remove(s, t), t, Suspended);
      PriorityQueued(s1, t, prio);
      InsertQueued(s1.(threads := s1.threads[t := s1.threads[t].(prio := prio)]), t);
      ChangeReadyIs(s, t, prio);
    } else {
      PriorityQueued(s, t, prio);
    }
  }

  lemma StartupInv(s: State, t: Tid)
    requires Inv(s) && Enabled(s, StartupOp(t))
    ensures Inv(Resume(SetStat(s, t, Suspended), t))
  {
    var s1 := SetStat(s, t, Suspended);
    assert Queued(s1);
    InsertQueued(s1, t);
  }

  lemma ScheduleInv(s: State)
    requires Inv(s)
    ensures Inv(Schedule(s)) && Schedule(s).threads.Keys == s.threads.Keys
  {
    if s.lockNest == 0 && Top(s.queues) < |s.queues| && !Stays(s.threads[s.current], Top(s.queues)) {
      SwitchInv(s);
    } else {
      StaysInv(s);
    }
  }

  lemma YieldInv(s: State)
    requires Inv(s)
    ensures Inv(s.(threads := s.threads[s.current := s.threads[s.current].(yielding := true)]))
  {
  }

  /** Every operation keeps every ready thread on the queue of its priority, once, and nobody else on any. */
  lemma StepInv(s: State, op: Op)
    requires Inv(s) && Enabled(s, op)
    ensures Inv(Step(s, op)) && Step(s, op).threads.Keys == s.threads.Keys
  {
    hide Queued, Schedule, Top, Without, Known, Distinct;
    match op
    case StartupOp(t) => StartupInv(s, t);
    case SuspendOp => RemoveQueued(s, s.current, Suspended);
    case ResumeOp(t) => if s.threads[t].stat == Suspended { InsertQueued(s, t); }
    case CloseOp => RemoveQueued(s, s.current, Closed);
    case YieldOp => YieldInv(s);
    case ChangePriorityOp(t, prio) => ChangePriorityInv(s, t, prio);
    case ScheduleOp => ScheduleInv(s);
    case EnterOp => OtherFields(s, s.(lockNest := s.lockNest + 1));
    case ExitOp => OtherFields(s, s.(lockNest := if s.lockNest > 0 then s.lockNest - 1 else 0));
  }

  lemma OtherFields(s: State, s': State)
    requires Inv(s) && s' == s.(lockNest := s'.lockNest)
    ensures Inv(s')
  {
  }

  // ---------------------------------------------------------------- whole runs

  ghost function Run(s: State, ops: seq<Op>): State
    requires Inv(s)
    decreases |ops|
  {
    if ops == [] then s
    else if Enabled(s, ops[0]) then
      StepInv(s, ops[0]);
      Run(Step(s, ops[0]), ops[1..])
    else Run(s, ops[1..])
  }

  /** And so does every history of operations. */
  lemma {:induction false} RunInv(s: State, ops: seq<Op>)
    requires Inv(s)
    ensures Inv(Run(s, ops)) && Run(s, ops).threads.Keys == s.threads.Keys
    decreases |ops|
  {
    if ops != [] {
      if Enabled(s, ops[0]) {
        StepInv(s, ops[0]);
        RunInv(Step(s, ops[0]), ops[1..]);
      } else {
        RunInv(s, ops[1..]);
      }
    }
  }

  /** Where a thread is, as the program's lists say it. */
  ghost predicate OnQueue(s: State, t: Tid) {
    exists p :: 0 <= p < |s.queues| && t in s.queues[p]
  }

  /** In every reachable state each thread is in exactly one place: the current thread or
      not yet started, suspended or closed, and then on no queue; or on the queue of its own
      priority, once, and on no other. */
  lemma OnePlaceEver(s0: State, ops: seq<Op>, t: Tid)
    requires Inv(s0) && t in s0.threads
    ensures var s := Run(s0, ops);
      && t in s.threads
      && (OnQueue(s, t) <==> s.threads[t].stat == Ready)
      && (forall p :: 0 <= p < |s.queues| && t in s.queues[p] ==> p == s.threads[t].prio && Distinct(s.queues[p]))
      && (s.threads[t].stat == Running ==> t == s.current)
      && (t == s.current ==> s.threads[t].stat in {Running, Suspended, Closed} && !OnQueue(s, t))
  {
    RunInv(s0, ops);
    var s := Run(s0, ops);
    if s.threads[t].stat == Ready { assert t in s.queues[s.threads[t].prio]; }
  }

  ghost predicate SomeoneCanRun(s: State) {
    (s.current in s.threads && s.threads[s.current].stat == Running)
    || exists t :: t in s.threads && s.threads[t].stat == Ready
  }

  /** After a schedule with the scheduler unlocked, the current thread runs, and no ready
      thread is more urgent. */
  lemma MostUrgentRuns(s: State)
    requires Inv(s) && s.lockNest == 0 && SomeoneCanRun(s)
    ensures var s' := Schedule(s);
      && Inv(s') && s'.threads[s'.current].stat == Running
      && forall t :: t in s'.threads && s'.threads[t].stat == Ready ==>
           s'.threads[s'.current].prio <= s'.threads[t].prio
  {
    StepInv(s, ScheduleOp);
    var s' := Schedule(s);
    var top := Top(s.queues);
    if top == |s.queues| {
      NobodyReady(s);
    } else if Stays(s.threads[s.current], top) {
      StaysInv(s);
      forall t | t in s'.threads && s'.threads[t].stat == Ready ensures top <= s'.threads[t].prio {
        assert t in s.queues[s.threads[t].prio];
      }
    } else {
      SwitchInv(s);
      forall t | t in s'.threads && s'.threads[t].stat == Ready ensures top <= s'.threads[t].prio {
        SwitchReady(s, t);
      }
    }
  }

  lemma NobodyReady(s: State)
    requires Inv(s) && Top(s.queues) == |s.queues|
    ensures forall t :: t in s.threads ==> s.threads[t].stat != Ready
  {
    forall t | t in s.threads ensures s.threads[t].stat != Ready {
      assert s.queues[s.threads[t].prio] == [];
    }
  }

  /** The threads ready after a switch were ready before, or are the one preempted. */
  lemma SwitchReady(s: State, t: Tid)
    requires Inv(s) && s.lockNest == 0 && Top(s.queues) < |s.queues| && !Stays(s.threads[s.current], Top(s.queues))
    requires t in Schedule(s).threads && Schedule(s).threads[t].stat == Ready
    ensures t in s.threads && s.threads[t].prio == Schedule(s).threads[t].prio && Top(s.queues) <= s.threads[t].prio
  {
    SwitchInv(s);
    if t != s.current { assert t in s.queues[s.threads[t].prio]; }
  }

  /** A running thread is replaced only by a strictly more urgent one, or by one of its own
      priority when its yield flag is set, and then the longest waiting one. */
  lemma ReplacedOnlyFor(s: State)
    requires Inv(s) && s.threads[s.current].stat == Running
    ensures var s' := Schedule(s); var c := s.threads[s.current];
      s'.current != s.current ==>
        && s'.current in s.threads && s.threads[s'.current].stat == Ready
        && (s.threads[s'.current].prio < c.prio || (s.threads[s'.current].prio == c.prio && c.yielding))
        && s'.current == s.queues[s.threads[s'.current].prio][0]
        && s'.threads[s.current].stat == Ready
  {
    var top := Top(s.queues);
    if s.lockNest == 0 && top < |s.queues| && !Stays(s.threads[s.current], top) {
      SwitchInv(s);
      assert s.queues[top][0] in s.queues[top];
    }
  }

  // ------------------------------------------------------------ taking turns

  /** The threads of the current thread's priority, the running one first. */
  function Round(s: State): seq<Tid>
    requires s.current in s.threads && s.threads[s.current].prio < |s.queues|
  {
    [s.current] + s.queues[s.threads[s.current].prio]
  }

  /** `rt_thread_yield`. */
  function YieldTurn(s: State): State
    requires Inv(s)
  {
    StepInv(s, YieldOp);
    Schedule(Step(s, YieldOp))
  }

  ghost predicate TopPriority(s: State)
    requires s.current in s.threads
  {
    s.threads[s.current].stat == Running && s.lockNest == 0 && Top(s.queues) >= s.threads[s.current].prio
  }

  /** A yield hands over to the next thread of the same priority and puts the yielding one
      at the end: the round turns by one. */
  lemma YieldRotates(s: State)
    requires Inv(s) && TopPriority(s)
    ensures var s' := YieldTurn(s);
      && Inv(s') && TopPriority(s') && s'.threads[s'.current].prio == s.threads[s.current].prio
      && Round(s') == Round(s)[1..] + [Round(s)[0]]
  {
    hide Queued, Schedule, Top;
    StepInv(s, YieldOp);
    var y := Step(s, YieldOp);
    ScheduleInv(y);
    var p := s.threads[s.current].prio;
    if s.queues[p] == [] {
      YieldStays(y);
    } else {
      YieldSwitches(y);
      TopAfter(YieldTurn(s), s.queues, p);
    }
  }

  /** Alone at its priority, a yielding thread runs on. */
  lemma YieldStays(y: State)
    requires Inv(y) && TopPriority(y) && y.queues[y.threads[y.current].prio] == []
    ensures var s' := Schedule(y);
      && TopPriority(s') && s'.current == y.current && s'.queues == y.queues
      && s'.threads[s'.current].prio == y.threads[y.current].prio
  {
    assert Top(y.queues) != y.threads[y.current].prio;
    hide Queued;
    StaysInv(y);
  }

  /** A yielding thread gives way to the first of its queue and becomes the last. */
  lemma YieldSwitches(y: State)
    requires Inv(y) && y.lockNest == 0 && y.threads[y.current].stat == Running && y.threads[y.current].yielding
    requires var p := y.threads[y.current].prio; Top(y.queues) >= p && y.queues[p] != []
    ensures var p, s' := y.threads[y.current].prio, Schedule(y);
      && Top(y.queues) == p && s'.current == y.queues[p][0] && s'.lockNest == 0
      && s'.current in s'.threads && s'.threads[s'.current].stat == Running && s'.threads[s'.current].prio == p
      && s'.queues == y.queues[p := y.queues[p][1..] + [y.current]]
  {
    var p := y.threads[y.current].prio;
    assert Top(y.queues) == p;
    SwitchInv(y);
    var to := y.queues[p][0];
    var q := y.queues[p] + [y.current];
    assert q[0] == to && q[1..] == y.queues[p][1..] + [y.current];
    assert Without(q, to) == q[1..];
  }

  lemma TopAfter(s: State, queues: seq<seq<Tid>>, p: nat)
    requires p < |queues| == |s.queues| && (forall r :: 0 <= r < p ==> s.queues[r] == queues[r]) && Top(queues) == p
    ensures Top(s.queues) >= p
  {
    forall r | 0 <= r < p ensures s.queues[r] == [] { }
  }

  function Yields(s: State, n: nat): State
    requires Inv(s) && TopPriority(s)
    decreases n
  {
    if n == 0 then s else YieldRotates(s); Yields(YieldTurn(s), n - 1)
  }

  lemma Turned(r: seq<Tid>, r1: seq<Tid>, n: nat)
    requires 0 < n <= |r| && r1 == r[1..] + [r[0]]
    ensures r1[n - 1..] + r1[..n - 1] == r[n..] + r[..n]
    ensures r1[n - 1] == if n < |r| then r[n] else r[0]
  {
  }

  /** Yielding n times within a round runs the threads in their order: after n turns the
      n-th is running, and after a whole round the first one is again, with the same queue. */
  lemma {:induction false} RoundRobin(s: State, n: nat)
    requires Inv(s) && TopPriority(s) && n <= |Round(s)|
    ensures var s' := Yields(s, n);
      && Inv(s') && Round(s') == Round(s)[n..] + Round(s)[..n]
      && (n < |Round(s)| ==> s'.current == Round(s)[n])
      && (n == |Round(s)| ==> s'.current == s.current && Round(s') == Round(s))
    decreases n
  {
    hide Queued, TopPriority, YieldTurn;
    if n > 0 {
      YieldRotates(s);
      var s1 := YieldTurn(s);
      RoundRobin(s1, n - 1);
      Turned(Round(s), Round(s1), n);
    }
  }

  // ------------------------------------------------- turns lost without a yield

  /** Operations by which no thread gives up its turn or changes its priority. */
  predicate Quiet(op: Op) {
    !op.YieldOp? && !op.SuspendOp? && !op.CloseOp? && !op.ChangePriorityOp?
  }

  /** Some schedule of the run finds a thread ready that is more urgent than `prio`. */
  ghost predicate Outranked(s: State, ops: seq<Op>, prio: nat)
    requires Inv(s)
    decreases |ops|
  {
    if ops == [] then false
    else if Enabled(s, ops[0]) then
      StepInv(s, ops[0]);
      (ops[0].ScheduleOp? && s.lockNest == 0 && Top(s.queues) < prio) || Outranked(Step(s, ops[0]), ops[1..], prio)
    else Outranked(s, ops[1..], prio)
  }

  /** One quiet operation keeps the running thread, or brings a more urgent one. */
  lemma QuietStep(s: State, op: Op)
    requires Inv(s) && Enabled(s, op) && Quiet(op) && s.threads[s.current].stat == Running
    ensures var c, s' := s.threads[s.current], Step(s, op);
      && Inv(s') && s'.threads[s'.current].stat == Running
      && (s'.current == s.current ==>
            s'.threads[s.current].prio == c.prio && (!c.yielding ==> !s'.threads[s.current].yielding))
      && s'.threads[s'.current].prio <= c.prio
      && (!c.yielding ==> (s'.current == s.current
            <==> !(op.ScheduleOp? && s.lockNest == 0 && Top(s.queues) < c.prio)))
      && (s'.current != s.current && !c.yielding ==> s'.threads[s'.current].prio < c.prio)
  {
    hide Queued;
    StepInv(s, op);
    if op.ScheduleOp? && s.lockNest == 0 && Top(s.queues) < |s.queues|
       && !Stays(s.threads[s.current], Top(s.queues)) {
      SwitchInv(s);
    }
  }

  /** Once a more urgent thread runs, quiet operations do not bring a less urgent one back. */
  lemma {:induction false} MoreUrgentStays(s: State, ops: seq<Op>, prio: nat)
    requires Inv(s) && s.threads[s.current].stat == Running && s.threads[s.current].prio < prio
    requires forall i :: 0 <= i < |ops| ==> Quiet(ops[i])
    ensures var s' := Run(s, ops); s'.current in s'.threads && s'.threads[s'.current].prio < prio
    decreases |ops|
  {
    hide Queued, Schedule, Top;
    if ops != [] {
      if Enabled(s, ops[0]) {
        QuietStep(s, ops[0]);
        MoreUrgentStays(Step(s, ops[0]), ops[1..], prio);
      } else {
        MoreUrgentStays(s, ops[1..], prio);
      }
    }
  }

  lemma QuietKeepsPriority(s: State, op: Op, t: Tid)
    requires Inv(s) && Enabled(s, op) && Quiet(op) && t in s.threads
    ensures t in Step(s, op).threads && Step(s, op).threads[t].prio == s.threads[t].prio
  {
    hide Queued, Schedule, Top;
    if op.ScheduleOp? { ScheduleThreads(s); }
  }

  /** Over any quiet run a thread that has not yielded keeps the processor if and only if no
      schedule met a more urgent thread: threads of its own priority never take it over. */
  lemma {:induction false} KeepsRunningExactly(s: State, ops: seq<Op>)
    requires Inv(s) && s.threads[s.current].stat == Running && !s.threads[s.current].yielding
    requires forall i :: 0 <= i < |ops| ==> Quiet(ops[i])
    ensures Run(s, ops).current == s.current <==> !Outranked(s, ops, s.threads[s.current].prio)
    decreases |ops|
  {
    hide Queued, Schedule, Top;
    if ops != [] {
      if Enabled(s, ops[0]) {
        var s1 := Step(s, ops[0]);
        QuietStep(s, ops[0]);
        if s1.current == s.current {
          KeepsRunningExactly(s1, ops[1..]);
        } else {
          var prio := s.threads[s.current].prio;
          MoreUrgentStays(s1, ops[1..], prio);
          QuietPriorities(s, ops, s.current);
        }
      } else {
        KeepsRunningExactly(s, ops[1..]);
      }
    }
  }

  lemma {:induction false} QuietPriorities(s: State, ops: seq<Op>, t: Tid)
    requires Inv(s) && t in s.threads && forall i :: 0 <= i < |ops| ==> Quiet(ops[i])
    ensures t in Run(s, ops).threads && Run(s, ops).threads[t].prio == s.threads[t].prio
    decreases |ops|
  {
    hide Queued, Schedule, Top;
    if ops != [] {
      if Enabled(s, ops[0]) {
        StepInv(s, ops[0]);
        QuietKeepsPriority(s, ops[0], t);
        QuietPriorities(Step(s, ops[0]), ops[1..], t);
      } else {
        QuietPriorities(s, ops[1..], t);
      }
    }
  }

  /** What a preemption leaves behind: the thread preempted is last on its queue. */
  lemma PreemptedLast(s: State)
    requires Inv(s) && s.lockNest == 0 && s.threads[s.current].stat == Running
    requires Top(s.queues) < s.threads[s.current].prio
    ensures var p, q, s' := s.threads[s.current].prio, Top(s.queues), Schedule(s);
      && Inv(s') && s'.current == s.queues[q][0] && s'.lockNest == 0 && s'.threads[s'.current].stat == Running
      && s'.threads[s'.current].prio == q
      && s'.queues == s.queues[p := s.queues[p] + [s.current]][q := s.queues[q][1..]]
  {
    SwitchInv(s);
    var q := Top(s.queues);
    assert Without(s.queues[q], s.queues[q][0]) == s.queues[q][1..];
  }

  /** The running thread suspends itself: the first thread of the most urgent queue takes over. */
  lemma SuspendedGivesWay(s: State)
    requires Inv(s) && s.lockNest == 0 && s.threads[s.current].stat == Running && Top(s.queues) < |s.queues|
    ensures Inv(Step(s, SuspendOp)) && Step(s, SuspendOp).queues == s.queues
    ensures var s' := Schedule(Step(s, SuspendOp));
      && Inv(s') && s'.current == s.queues[Top(s.queues)][0]
  {
    hide Queued;
    StepInv(s, SuspendOp);
    CurrentWaitsNot(s);
    WithoutAbsent(s.queues[s.threads[s.current].prio], s.current);
    assert Step(s, SuspendOp).queues == s.queues;
    SwitchInv(Step(s, SuspendOp));
  }

  lemma CurrentWaitsNot(s: State)
    requires Inv(s)
    ensures s.current !in s.queues[s.threads[s.current].prio]
  {
  }

  /** A more urgent thread resumes and takes over; nothing else has changed. */
  lemma Overtaken(s: State, u: Tid)
    requires Inv(s) && s.lockNest == 0 && s.threads[s.current].stat == Running
    requires Top(s.queues) >= s.threads[s.current].prio
    requires u in s.threads && s.threads[u].stat == Suspended && s.threads[u].prio < s.threads[s.current].prio
    ensures Inv(Step(s, ResumeOp(u))) && Inv(Step(Step(s, ResumeOp(u)), ScheduleOp))
    ensures var p, s2 := s.threads[s.current].prio, Step(Step(s, ResumeOp(u)), ScheduleOp);
      && s2.lockNest == 0 && s2.threads[s2.current].stat == Running
      && |s2.queues| == |s.queues| && s2.queues[p] == s.queues[p] + [s.current] && Top(s2.queues) == p
  {
    hide Queued, Schedule, Top;
    var p, q := s.threads[s.current].prio, s.threads[u].prio;
    StepInv(s, ResumeOp(u));
    var s1 := Step(s, ResumeOp(u));
    TopIs(s1.queues, q);
    PreemptedLast(s1);
    TopIs(Step(s1, ScheduleOp).queues, p);
  }

  /** The turn of a preempted thread: after a more urgent thread has come, run and suspended
      itself again, the thread preempted runs on if and only if no other thread of its
      priority was waiting; otherwise the longest waiting one has its turn, without a yield. */
  lemma PreemptedReturnsExactly(s: State, u: Tid)
    requires Inv(s) && s.lockNest == 0 && s.threads[s.current].stat == Running && !s.threads[s.current].yielding
    requires var p := s.threads[s.current].prio;
      Top(s.queues) >= p && u in s.threads && s.threads[u].stat == Suspended && s.threads[u].prio < p
    ensures var p, s' := s.threads[s.current].prio, Run(s, [ResumeOp(u), ScheduleOp, SuspendOp, ScheduleOp]);
      && s'.current == (s.queues[p] + [s.current])[0]
      && (s'.current == s.current <==> s.queues[p] == [])
  {
    hide Queued, Schedule, Top, Step, Run;
    Overtaken(s, u);
    var s2 := Step(Step(s, ResumeOp(u)), ScheduleOp);
    SuspendedGivesWay(s2);
    ScheduleStep(Step(s2, SuspendOp));
    RunFour(s, ResumeOp(u), ScheduleOp, SuspendOp, ScheduleOp);
    CurrentWaitsNot(s);
  }

  lemma ScheduleStep(s: State)
    requires Inv(s)
    ensures Step(s, ScheduleOp) == Schedule(s)
  {
    hide Schedule;
  }

  lemma TopIs(queues: seq<seq<Tid>>, p: nat)
    requires p < |queues| && queues[p] != [] && forall r :: 0 <= r < p ==> queues[r] == []
    ensures Top(queues) == p
  {
  }

  lemma RunCons(s: State, op: Op, ops: seq<Op>)
    requires Inv(s) && Enabled(s, op)
    ensures Inv(Step(s, op)) && Run(s, [op] + ops) == Run(Step(s, op), ops)
  {
    hide Queued, Schedule, Step, Enabled;
    StepInv(s, op);
    assert ([op] + ops)[1..] == ops;
  }

  lemma RunFour(s: State, a: Op, b: Op, c: Op, d: Op)
    requires Inv(s) && Enabled(s, a) && Inv(Step(s, a)) && Enabled(Step(s, a), b)
    requires Inv(Step(Step(s, a), b)) && Enabled(Step(Step(s, a), b), c)
    requires Inv(Step(Step(Step(s, a), b), c)) && Enabled(Step(Step(Step(s, a), b), c), d)
    ensures Run(s, [a, b, c, d]) == Step(Step(Step(Step(s, a), b), c), d)
  {
    hide Queued, Schedule, Step, Enabled, Inv;
    RunCons(s, a, [b, c, d]);
    RunCons(Step(s, a), b, [c, d]);
    RunCons(Step(Step(s, a), b), c, [d]);
    RunCons(Step(Step(Step(s, a), b), c), d, []);
    assert [a] + [b, c, d] == [a, b, c, d] && [b] + [c, d] == [b, c, d] && [c] + [d] == [c, d] && [d] + [] == [d];
  }

  // ------------------------------------------------------------- no overtaking

  ghost predicate Before(q: seq<Tid>, u: Tid, t: Tid) {
    exists i, j :: 0 <= i < j < |q| && q[i] == u && q[j] == t
  }

  /** `u` waits in front of `t` on the queue of `t`. */
  ghost predicate Ahead(s: State, u: Tid, t: Tid) {
    t in s.threads && s.threads[t].prio < |s.queues| && Before(s.queues[s.threads[t].prio], u, t)
  }

  lemma AppendBefore(q: seq<Tid>, x: Tid, u: Tid, t: Tid)
    requires x != t && Before(q + [x], u, t)
    ensures Before(q, u, t)
  {
    var i, j :| 0 <= i < j < |q| + 1 && (q + [x])[i] == u && (q + [x])[j] == t;
    assert q[i] == u && q[j] == t;
  }

  lemma {:induction false} WithoutBefore(q: seq<Tid>, x: Tid, u: Tid, t: Tid)
    requires Before(Without(q, x), u, t)
    ensures Before(q, u, t)
  {
    var w := Without(q, x);
    var i, j :| 0 <= i < j < |w| && w[i] == u && w[j] == t;
    if q[0] == x {
      assert q[i + 1] == u && q[j + 1] == t;
    } else if i == 0 {
      assert t in Without(q[1..], x) by { assert Without(q[1..], x)[j - 1] == t; }
      WithoutWithin(q[1..], x, t);
      var k :| 0 <= k < |q[1..]| && q[1..][k] == t;
      assert q[0] == u && q[k + 1] == t;
    } else {
      var v := Without(q[1..], x);
      assert v[i - 1] == u && v[j - 1] == t;
      WithoutBefore(q[1..], x, u, t);
      var k, l :| 0 <= k < l < |q[1..]| && q[1..][k] == u && q[1..][l] == t;
      assert q[k + 1] == u && q[l + 1] == t;
    }
  }

  lemma {:induction false} WithoutWithin(q: seq<Tid>, x: Tid, t: Tid)
    requires t in Without(q, x)
    ensures t in q
  {
    if q[0] != x && t != q[0] { WithoutWithin(q[1..], x, t); }
  }

  lemma InsertBefore(s: State, x: Tid, u: Tid, t: Tid)
    requires t in s.threads && x in s.threads && s.threads[x].prio < |s.queues| && x != t && Ahead(Insert(s, x), u, t)
    ensures Ahead(s, u, t)
  {
    hide Before;
    if x != s.current && s.threads[x].prio == s.threads[t].prio {
      AppendBefore(s.queues[s.threads[t].prio], x, u, t);
    }
  }

  lemma RemoveBefore(s: State, x: Tid, stat: Stat, u: Tid, t: Tid)
    requires t in s.threads && x in s.threads && s.threads[x].prio < |s.queues|
    requires Ahead(SetStat(Remove(s, x), x, stat), u, t)
    ensures Ahead(s, u, t)
  {
    hide Before, Without;
    if s.threads[x].prio == s.threads[t].prio {
      WithoutBefore(s.queues[s.threads[t].prio], x, u, t);
    }
  }

  lemma ScheduleBefore(s: State, u: Tid, t: Tid)
    requires Inv(s) && t in s.threads && t != s.current && Ahead(Schedule(s), u, t)
    ensures Ahead(s, u, t)
  {
    hide Queued, Before, Without;
    var top := Top(s.queues);
    if s.lockNest == 0 && top < |s.queues| && !Stays(s.threads[s.current], top) {
      SwitchInv(s);
      var c, to := s.threads[s.current], s.queues[top][0];
      if c.stat == Running {
        var s1 := s.(threads := s.threads[s.current := c.(yielding := false)], current := to);
        var s2 := Insert(s1, s.current);
        RemoveBefore(s2, to, Running, u, t);
        InsertBefore(s1, s.current, u, t);
      } else {
        RemoveBefore(s.(current := to), to, Running, u, t);
      }
    }
  }

  /** An operation puts nobody in front of a thread that is ready before and after it. */
  lemma NoOvertaking(s: State, op: Op, u: Tid, t: Tid)
    requires Inv(s) && Enabled(s, op) && t in s.threads && s.threads[t].stat == Ready
    requires !(op.ChangePriorityOp? && op.t == t) && Ahead(Step(s, op), u, t)
    ensures Ahead(s, u, t)
  {
    hide Queued, Schedule, Before, Without;
    match op
    case StartupOp(x) => InsertBefore(SetStat(s, x, Suspended), x, u, t);
    case SuspendOp => if s.threads[s.current].stat == Running { RemoveBefore(s, s.current, Suspended, u, t); }
    case ResumeOp(x) => if s.threads[x].stat == Suspended { InsertBefore(s, x, u, t); }
    case CloseOp => RemoveBefore(s, s.current, Closed, u, t);
    case ChangePriorityOp(x, prio) =>
      if s.threads[x].stat == Ready {
        var s1 := Remove(s, x);
        var s2 := s1.(threads := s1.threads[x := s1.threads[x].(prio := prio)]);
        InsertBefore(s2, x, u, t);
        RemoveBefore(s, x, s.threads[x].stat, u, t);
      }
    case ScheduleOp => ScheduleBefore(s, u, t);
    case YieldOp =>
    case EnterOp =>
    case ExitOp =>
  }

  /** `t` waits on its queue all through the run, at the priority it has. */
  ghost predicate Waits(s: State, ops: seq<Op>, t: Tid)
    requires Inv(s)
    decreases |ops|
  {
    && t in s.threads && s.threads[t].stat == Ready
    && (ops != [] ==>
          if Enabled(s, ops[0]) then
            StepInv(s, ops[0]);
            !(ops[0].ChangePriorityOp? && ops[0].t == t) && Waits(Step(s, ops[0]), ops[1..], t)
          else Waits(s, ops[1..], t))
  }

  /** Over any run in which a thread stays ready, nobody gets in front of it on its queue: it
      waits at most for those that were there when it came. */
  lemma {:induction false} NoOvertakingEver(s: State, ops: seq<Op>, u: Tid, t: Tid)
    requires Inv(s) && Waits(s, ops, t) && Ahead(Run(s, ops), u, t)
    ensures Ahead(s, u, t)
    decreases |ops|
  {
    hide Queued, Schedule, Before, Without, Ahead, Step;
    if ops != [] {
      if Enabled(s, ops[0]) {
        StepInv(s, ops[0]);
        NoOvertakingEver(Step(s, ops[0]), ops[1..], u, t);
        NoOvertaking(s, ops[0], u, t);
      } else {
        NoOvertakingEver(s, ops[1..], u, t);
      }
    }
  }

  /** Two threads of one priority change over although neither yields: the first is preempted. */
  lemma TurnLostWithoutYield()
    ensures
      var s := State(map[0 := Thread(Running, false, 1), 1 := Thread(Ready, false, 1),
                         2 := Thread(Suspended, false, 0)],
                     [[], [1]], 0, 0);
      Inv(s) && Run(s, [ResumeOp(2), ScheduleOp, SuspendOp, ScheduleOp]).current == 1
  {
    var s := State(map[0 := Thread(Running, false, 1), 1 := Thread(Ready, false, 1), 2 := Thread(Suspended, false, 0)],
                   [[], [1]], 0, 0);
    assert s.queues[0] == [] && s.queues[1] == [1];
    assert Inv(s);
    assert Top(s.queues) == 1 by { TopIs(s.queues, 1); }
    PreemptedReturnsExactly(s, 2);
  }

  // ------------------------------------------------- the round of a priority

  /** The threads of priority p that can run: the running one first, if it is of p, and then
      those that wait, in order. */
  function RoundOf(s: State, p: nat): seq<Tid>
    requires s.current in s.threads && p < |s.queues|
  {
    var c := s.threads[s.current];
    (if c.stat == Running && c.prio == p then [s.current] else []) + s.queues[p]
  }

  /** What can happen to a round: the first becomes the last; a thread comes in at the end or,
      running, at the front; one leaves; one goes to the end. */
  datatype Move = Stay | Turn | JoinBack(t: Tid) | JoinFront(t: Tid) | Leave(t: Tid) | Requeue(t: Tid)

  function Moved(r: seq<Tid>, m: Move): seq<Tid> {
    match m
    case Stay => r
    case Turn => if r == [] then [] else r[1..] + [r[0]]
    case JoinBack(t) => r + [t]
    case JoinFront(t) => [t] + r
    case Leave(t) => Without(r, t)
    case Requeue(t) => Without(r, t) + [t]
  }

  /** A schedule turns the round of p when its running thread has yielded to one of p, or is
      preempted. */
  ghost predicate Turns(s: State, p: nat)
    requires s.current in s.threads
  {
    var c := s.threads[s.current];
    s.lockNest == 0 && c.stat == Running && c.prio == p && (Top(s.queues) < p || (Top(s.queues) == p && c.yielding))
  }

  /** A change of priority from `was.prio` to `prio`, for the round of p. */
  function ChangeMove(t: Tid, was: Thread, prio: nat, p: nat): Move {
    if was.stat == Ready then
      if was.prio == p then if prio == p then Requeue(t) else Leave(t)
      else if prio == p then JoinBack(t) else Stay
    else if was.stat == Running && was.prio != prio then
      if was.prio == p then Leave(t) else if prio == p then JoinFront(t) else Stay
    else Stay
  }

  ghost function MoveOf(s: State, op: Op, p: nat): Move
    requires Inv(s) && Enabled(s, op)
  {
    var c := s.threads[s.current];
    match op
    case StartupOp(t) => if s.threads[t].prio == p then JoinBack(t) else Stay
    case ResumeOp(t) =>
      if s.threads[t].stat != Suspended || s.threads[t].prio != p then Stay
      else if t == s.current then JoinFront(t) else JoinBack(t)
    case SuspendOp => if c.stat == Running && c.prio == p then Leave(s.current) else Stay
    case CloseOp => if c.prio == p then Leave(s.current) else Stay
    case ChangePriorityOp(t, prio) => ChangeMove(t, s.threads[t], prio, p)
    case ScheduleOp => if Turns(s, p) then Turn else Stay
    case _ => Stay
  }

  lemma WithoutFirst(t: Tid, l: seq<Tid>)
    ensures Without([t] + l, t) == l
  {
  }

  lemma {:induction false} WithoutBehind(c: Tid, l: seq<Tid>, t: Tid)
    requires c != t
    ensures Without([c] + l, t) == [c] + Without(l, t)
  {
    assert ([c] + l)[1..] == l;
  }

  /** What a switch does to the queues. */
  lemma SwitchQueues(s: State)
    requires Inv(s) && s.lockNest == 0 && Top(s.queues) < |s.queues| && !Stays(s.threads[s.current], Top(s.queues))
    ensures var c, top, s' := s.threads[s.current], Top(s.queues), Schedule(s);
      var queues := if c.stat == Running then s.queues[c.prio := s.queues[c.prio] + [s.current]] else s.queues;
      && queues[top] != [] && queues[top][0] == s.queues[top][0]
      && s'.queues == queues[top := queues[top][1..]]
  {
    hide Queued;
    SwitchInv(s);
  }

  lemma ScheduleRound(s: State, p: nat)
    requires Inv(s) && p < |s.queues|
    ensures Inv(Schedule(s)) && |Schedule(s).queues| == |s.queues|
    ensures RoundOf(Schedule(s), p) == Moved(RoundOf(s, p), if Turns(s, p) then Turn else Stay)
  {
    hide Queued, Schedule, Without, Top;
    ScheduleInv(s);
    var c, top := s.threads[s.current], Top(s.queues);
    if s.lockNest == 0 && top < |s.queues| && !Stays(c, top) {
      SwitchInv(s);
      SwitchQueues(s);
      var to := s.queues[top][0];
      assert [to] + s.queues[top][1..] == s.queues[top];
      if c.stat == Running {
        assert (s.queues[top] + [s.current])[1..] == s.queues[top][1..] + [s.current];
        assert [to] + (s.queues[top][1..] + [s.current]) == s.queues[top] + [s.current];
      }
    } else {
      StaysKeeps(s);
    }
  }

  lemma StaysKeeps(s: State)
    requires Inv(s) && (s.lockNest != 0 || Top(s.queues) == |s.queues| || Stays(s.threads[s.current], Top(s.queues)))
    ensures var s' := Schedule(s);
      && s'.queues == s.queues && s'.current == s.current && s.current in s'.threads
      && s'.threads[s.current] == s.threads[s.current].(yielding := s'.threads[s.current].yielding)
  {
    hide Queued;
  }

  lemma InsertRound(s: State, t: Tid, p: nat)
    requires s.current in s.threads && t in s.threads && p < |s.queues| && s.threads[t].prio < |s.queues|
    requires s.threads[t].stat != Running && s.threads[t].stat != Ready
    ensures RoundOf(Insert(s, t), p) == Moved(RoundOf(s, p),
      if s.threads[t].prio != p then Stay else if t == s.current then JoinFront(t) else JoinBack(t))
  {
  }

  lemma StartupRound(s: State, t: Tid, p: nat)
    requires Inv(s) && Enabled(s, StartupOp(t)) && p < |s.queues|
    ensures Inv(Step(s, StartupOp(t))) && |Step(s, StartupOp(t)).queues| == |s.queues|
    ensures RoundOf(Step(s, StartupOp(t)), p) == Moved(RoundOf(s, p), MoveOf(s, StartupOp(t), p))
  {
    hide Queued, Top, Without;
    StepInv(s, StartupOp(t));
    InsertRound(SetStat(s, t, Suspended), t, p);
  }

  /** The running thread suspends itself or ends. */
  lemma GoneRound(s: State, stat: Stat, p: nat)
    requires Inv(s) && s.threads[s.current].stat == Running && (stat == Suspended || stat == Closed) && p < |s.queues|
    ensures var s' := SetStat(Remove(s, s.current), s.current, stat);
      && |s'.queues| == |s.queues|
      && RoundOf(s', p) == Moved(RoundOf(s, p), if s.threads[s.current].prio == p then Leave(s.current) else Stay)
  {
    hide Queued, Top;
    var c := s.threads[s.current];
    CurrentWaitsNot(s);
    WithoutAbsent(s.queues[c.prio], s.current);
    WithoutFirst(s.current, s.queues[c.prio]);
  }

  lemma ChangeRound(s: State, t: Tid, prio: nat, p: nat)
    requires Inv(s) && Enabled(s, ChangePriorityOp(t, prio)) && p < |s.queues|
    ensures var s' := ChangePriority(s, t, prio);
      && |s'.queues| == |s.queues| && s'.current in s'.threads
      && RoundOf(s', p) == Moved(RoundOf(s, p), ChangeMove(t, s.threads[t], prio, p))
  {
    hide Queued, Top, Without;
    if s.threads[t].stat == Ready {
      ChangeReady(s, t, prio, p);
    } else if t == s.current {
      CurrentWaitsNot(s);
      WithoutFirst(t, s.queues[p]);
    }
  }

  lemma ChangeReady(s: State, t: Tid, prio: nat, p: nat)
    requires s.current in s.threads && t in s.threads && t != s.current && s.threads[t].stat == Ready
    requires s.threads[t].prio < |s.queues| && prio < |s.queues| && p < |s.queues|
    ensures var s' := ChangePriority(s, t, prio);
      && |s'.queues| == |s.queues| && s'.current in s'.threads
      && RoundOf(s', p) == Moved(RoundOf(s, p), ChangeMove(t, s.threads[t], prio, p))
  {
    hide Without;
    var c := s.threads[s.current];
    var first := if c.stat == Running && c.prio == p then [s.current] else [];
    var was, q, q' := s.threads[t].prio, s.queues[p], ChangePriority(s, t, prio).queues[p];
    assert RoundOf(ChangePriority(s, t, prio), p) == first + q';
    assert q' == (if was == p then Without(q, t) else q) + (if prio == p then [t] else []);
    assert Without(first + q, t) == first + Without(q, t) by {
      if first == [] { assert first + q == q; } else { WithoutBehind(s.current, q, t); }
    }
  }

  /** Each operation does to the round of each priority what its move says. */
  lemma StepRound(s: State, op: Op, p: nat)
    requires Inv(s) && Enabled(s, op) && p < |s.queues|
    ensures Inv(Step(s, op)) && |Step(s, op).queues| == |s.queues|
    ensures RoundOf(Step(s, op), p) == Moved(RoundOf(s, p), MoveOf(s, op, p))
  {
    hide Queued, Schedule, Top, Without, Turns;
    StepInv(s, op);
    match op
    case StartupOp(t) => StartupRound(s, t, p);
    case ResumeOp(t) => if s.threads[t].stat == Suspended { InsertRound(s, t, p); }
    case SuspendOp => if s.threads[s.current].stat == Running { GoneRound(s, Suspended, p); }
    case CloseOp => GoneRound(s, Closed, p);
    case ChangePriorityOp(t, prio) => ChangeRound(s, t, prio, p);
    case ScheduleOp => ScheduleRound(s, p);
    case YieldOp =>
    case EnterOp =>
    case ExitOp =>
  }

  /** The moves of a run, in order. */
  ghost function Moves(s: State, ops: seq<Op>, p: nat): seq<Move>
    requires Inv(s)
    decreases |ops|
  {
    if ops == [] then []
    else if Enabled(s, ops[0]) then
      StepInv(s, ops[0]);
      [MoveOf(s, ops[0], p)] + Moves(Step(s, ops[0]), ops[1..], p)
    else Moves(s, ops[1..], p)
  }

  function MovedAll(r: seq<Tid>, moves: seq<Move>): seq<Tid>
    decreases |moves|
  {
    if moves == [] then r else MovedAll(Moved(r, moves[0]), moves[1..])
  }

  /** Over every run the round of every priority is what the moves make of it: it is turned by
      each yield and each preemption of its running thread, and by nothing else. */
  lemma {:induction false} RoundEver(s: State, ops: seq<Op>, p: nat)
    requires Inv(s) && p < |s.queues|
    ensures Inv(Run(s, ops)) && |Run(s, ops).queues| == |s.queues|
    ensures RoundOf(Run(s, ops), p) == MovedAll(RoundOf(s, p), Moves(s, ops, p))
    decreases |ops|
  {
    hide Queued, Schedule, Step, Enabled, MoveOf, Moved, RoundOf;
    if ops != [] {
      if Enabled(s, ops[0]) {
        StepRound(s, ops[0], p);
        var m, rest := MoveOf(s, ops[0], p), Moves(Step(s, ops[0]), ops[1..], p);
        assert ([m] + rest)[1..] == rest;
        RoundEver(Step(s, ops[0]), ops[1..], p);
      } else {
        RoundEver(s, ops[1..], p);
      }
    }
  }

  /** How often a round is turned. */
  function TurnCount(moves: seq<Move>): nat {
    if moves == [] then 0 else (if moves[0] == Turn then 1 else 0) + TurnCount(moves[1..])
  }

  /** The round turned n times. */
  function Rotated(r: seq<Tid>, n: nat): seq<Tid> {
    if r == [] then [] else r[n % |r|..] + r[..n % |r|]
  }

  lemma RotatedOnce(r: seq<Tid>, n: nat)
    ensures Rotated(Moved(r, Turn), n) == Rotated(r, n + 1)
  {
    if r != [] {
      NextPlace(n, |r|);
      TurnedBy(r, n % |r|);
    }
  }

  lemma TurnedBy(r: seq<Tid>, k: nat)
    requires k < |r|
    ensures var r1, j := r[1..] + [r[0]], if k + 1 < |r| then k + 1 else 0;
      |r1| == |r| && r1[k..] + r1[..k] == r[j..] + r[..j]
  {
    var r1, j := r[1..] + [r[0]], if k + 1 < |r| then k + 1 else 0;
    var a, b := r1[k..] + r1[..k], r[j..] + r[..j];
    forall i | 0 <= i < |r| ensures a[i] == b[i] { }
  }

  lemma NextPlace(n: nat, d: nat)
    requires d > 0
    ensures (n + 1) % d == if n % d + 1 < d then n % d + 1 else 0
  {
    var q, k := n / d, n % d;
    assert n == d * q + k;
    if k + 1 < d {
      Alignment.ModAbove(q, d, k + 1);
    } else {
      assert n + 1 == d * (q + 1);
      Alignment.TimesMod(q + 1, d);
    }
  }

  lemma {:induction false} OnlyTurns(r: seq<Tid>, moves: seq<Move>)
    requires forall i :: 0 <= i < |moves| ==> moves[i] == Stay || moves[i] == Turn
    ensures MovedAll(r, moves) == Rotated(r, TurnCount(moves))
    decreases |moves|
  {
    hide Rotated, Moved;
    if moves == [] {
      RotatedNone(r);
    } else {
      OnlyTurns(Moved(r, moves[0]), moves[1..]);
      if moves[0] == Turn { RotatedOnce(r, TurnCount(moves[1..])); } else { StayMoves(r); }
    }
  }

  lemma RotatedNone(r: seq<Tid>)
    ensures Rotated(r, 0) == r
  {
    if r != [] { Alignment.SmallMod(0, |r|); }
  }

  lemma StayMoves(r: seq<Tid>)
    ensures Moved(r, Stay) == r
  {
  }

  lemma RotatedFirst(r: seq<Tid>, n: nat)
    requires Rotated(r, n) != []
    ensures r != [] && Rotated(r, n)[0] == r[n % |r|]
  {
    PlaceBelow(n, |r|);
  }

  lemma PlaceBelow(n: nat, d: nat)
    requires d > 0
    ensures n % d < d
  {
  }

  /** While nobody of priority p joins, suspends, ends or changes priority, the round of p is
      turned exactly once by each yield and each preemption of its running thread.  So if a
      thread of p runs in the end, it is the one as many places on as there were turns. */
  lemma TurnsExactly(s: State, ops: seq<Op>, p: nat)
    requires Inv(s) && p < |s.queues|
    requires forall m :: m in Moves(s, ops, p) ==> m == Stay || m == Turn
    ensures Inv(Run(s, ops)) && |Run(s, ops).queues| == |s.queues|
    ensures var s', r, n := Run(s, ops), RoundOf(s, p), TurnCount(Moves(s, ops, p));
      && RoundOf(s', p) == Rotated(r, n)
      && (s'.threads[s'.current].stat == Running && s'.threads[s'.current].prio == p ==>
            r != [] && s'.current == r[n % |r|])
  {
    hide Queued, Run, Moves, TurnCount, MovedAll, Rotated;
    RoundEver(s, ops, p);
    var r, moves := RoundOf(s, p), Moves(s, ops, p);
    forall i | 0 <= i < |moves| ensures moves[i] == Stay || moves[i] == Turn { assert moves[i] in moves; }
    OnlyTurns(r, moves);
    if Rotated(r, TurnCount(moves)) != [] { RotatedFirst(r, TurnCount(moves)); }
  }

  // ------------------------------------------------- what each call does, outright

  /** Starting, resuming and suspending change one thread, from the state the call is for,
      and refuse all others; an end is for the running thread, and a yield leaves a mark. */
  lemma StatesExactly(s: State, t: Tid)
    requires Inv(s) && t in s.threads
    ensures Enabled(s, StartupOp(t)) ==>
      Step(s, StartupOp(t)).threads == s.threads[t := s.threads[t].(stat := Ready)]
    ensures Step(s, ResumeOp(t)).threads == (
      if s.threads[t].stat != Suspended then s.threads
      else s.threads[t := s.threads[t].(stat := if t == s.current then Running else Ready)])
    ensures s.threads[t].stat != Suspended ==> Step(s, ResumeOp(t)) == s
    ensures var c := s.threads[s.current];
      && Step(s, SuspendOp).threads == (
           if c.stat == Running then s.threads[s.current := c.(stat := Suspended)] else s.threads)
      && (c.stat != Running ==> Step(s, SuspendOp) == s)
      && (c.stat == Running ==> Step(s, CloseOp).threads == s.threads[s.current := c.(stat := Closed)])
      && Step(s, YieldOp) == s.(threads := s.threads[s.current := c.(yielding := true)])
  {
    hide Queued, Without;
  }

  /** None of these moves the processor or the lock; a change of priority changes that of one
      thread and nobody's state. */
  lemma OthersExactly(s: State, op: Op)
    requires Inv(s) && Enabled(s, op) && !op.ScheduleOp?
    ensures Step(s, op).current == s.current
    ensures Step(s, op).lockNest ==
      if op.EnterOp? then s.lockNest + 1
      else if op.ExitOp? && s.lockNest > 0 then s.lockNest - 1 else s.lockNest
    ensures op.EnterOp? || op.ExitOp? ==> Step(s, op).threads == s.threads && Step(s, op).queues == s.queues
    ensures op.ChangePriorityOp? ==>
      Step(s, op).threads == s.threads[op.t := s.threads[op.t].(prio := op.prio)]
  {
    hide Queued, Without;
  }

  /** A schedule with the scheduler locked, or with nobody ready, does nothing.  Otherwise the
      running thread loses its mark, and if another takes over, that one runs, a thread that
      ran till then is ready, and nobody else changes. */
  lemma ScheduleExactly(s: State)
    requires Inv(s)
    ensures var s', c := Schedule(s), s.threads[s.current];
      && s'.lockNest == s.lockNest && s'.threads.Keys == s.threads.Keys && s'.current in s.threads
      && (s.lockNest > 0 || (forall t :: t in s.threads ==> s.threads[t].stat != Ready) ==> s' == s)
      && (s.lockNest == 0 && (exists t :: t in s.threads && s.threads[t].stat == Ready) && s'.current == s.current ==>
            s' == s.(threads := s.threads[s.current := c.(yielding := false)]))
      && (s'.current != s.current ==>
            && s.threads[s'.current].stat == Ready
            && s'.threads[s'.current] == s.threads[s'.current].(stat := Running)
            && s'.threads[s.current] == (if c.stat == Running then c.(stat := Ready, yielding := false) else c))
      && (forall t :: t in s.threads && t != s.current && t != s'.current ==> s'.threads[t] == s.threads[t])
  {
    hide Queued, Top, Insert, Remove, Without;
    forall t | t in s.threads && s.threads[t].stat == Ready ensures Top(s.queues) < |s.queues| { SomeQueue(s, t); }
    if s.lockNest == 0 && Top(s.queues) < |s.queues| {
      HeadReady(s, Top(s.queues));
      if !Stays(s.threads[s.current], Top(s.queues)) {
        SwitchThreads(s);
      }
    }
  }

  lemma SomeQueue(s: State, t: Tid)
    requires Inv(s) && t in s.threads && s.threads[t].stat == Ready
    ensures Top(s.queues) < |s.queues|
  {
    hide Top;
    assert t in s.queues[s.threads[t].prio];
  }

  lemma SwitchThreads(s: State)
    requires Inv(s) && s.lockNest == 0 && Top(s.queues) < |s.queues| && !Stays(s.threads[s.current], Top(s.queues))
    ensures var s', c, to := Schedule(s), s.threads[s.current], s.queues[Top(s.queues)][0];
      && s'.current == to && to != s.current && to in s.threads && s'.lockNest == 0
      && s'.threads == s.threads[s.current := if c.stat == Running then c.(stat := Ready, yielding := false) else c]
                                [to := s.threads[to].(stat := Running)]
  {
    hide Queued, Top, Without;
    HeadReady(s, Top(s.queues));
  }

  /** A thread that has ended stays so, and a resume of it is refused. */
  lemma {:induction false} ClosedForever(s: State, ops: seq<Op>, t: Tid)
    requires Inv(s) && t in s.threads && s.threads[t].stat == Closed
    ensures var s' := Run(s, ops);
      && Inv(s') && t in s'.threads && s'.threads[t].stat == Closed && Step(s', ResumeOp(t)) == s'
    decreases |ops|
  {
    hide Queued, Schedule, Top;
    if ops == [] {
      StatesExactly(s, t);
    } else if Enabled(s, ops[0]) {
      StepInv(s, ops[0]);
      ClosedStep(s, ops[0], t);
      ClosedForever(Step(s, ops[0]), ops[1..], t);
    } else {
      ClosedForever(s, ops[1..], t);
    }
  }

  lemma ClosedStep(s: State, op: Op, t: Tid)
    requires Inv(s) && Enabled(s, op) && t in s.threads && s.threads[t].stat == Closed
    ensures t in Step(s, op).threads && Step(s, op).threads[t].stat == Closed
  {
    hide Queued, Top, Without, Schedule, Resume, Suspend, ChangePriority, Insert, Remove;
    match op
    case StartupOp(u) => StatesExactly(s, u);
    case ResumeOp(u) => StatesExactly(s, u);
    case ChangePriorityOp(u, prio) => OthersExactly(s, op);
    case ScheduleOp => ScheduleExactly(s);
    case _ => StatesExactly(s, t);
  }

  function Enters(ops: seq<Op>): nat {
    if ops == [] then 0 else (if ops[0].EnterOp? then 1 else 0) + Enters(ops[1..])
  }

  function Exits(ops: seq<Op>): nat {
    if ops == [] then 0 else (if ops[0].ExitOp? then 1 else 0) + Exits(ops[1..])
  }

  /** The lock counts. */
  lemma {:induction false} LockCounts(s: State, ops: seq<Op>)
    requires Inv(s) && Exits(ops) <= s.lockNest
    ensures Run(s, ops).lockNest == s.lockNest + Enters(ops) - Exits(ops)
    decreases |ops|
  {
    hide Queued, Schedule, Top;
    if ops != [] {
      if Enabled(s, ops[0]) {
        StepInv(s, ops[0]);
        if ops[0].ScheduleOp? { ScheduleExactly(s); } else { OthersExactly(s, ops[0]); }
        LockCounts(Step(s, ops[0]), ops[1..]);
      } else {
        LockCounts(s, ops[1..]);
      }
    }
  }

  /** As long as fewer locks have been given up than are held, nothing changes the current
      thread. */
  lemma {:induction false} LockHolds(s: State, ops: seq<Op>)
    requires Inv(s) && Exits(ops) < s.lockNest
    ensures Run(s, ops).current == s.current
    decreases |ops|
  {
    hide Queued, Schedule, Top;
    if ops != [] {
      if Enabled(s, ops[0]) {
        StepInv(s, ops[0]);
        if ops[0].ScheduleOp? { ScheduleExactly(s); } else { OthersExactly(s, ops[0]); }
        LockHolds(Step(s, ops[0]), ops[1..]);
      } else {
        LockHolds(s, ops[1..]);
      }
    }
  }

  /** So the lock nests: after n of them, no run with fewer than n unlocks changes the current
      thread, and n unlocks undo them. */
  lemma LockNests(s: State, enters: seq<Op>, ops: seq<Op>)
    requires Inv(s) && (forall i :: 0 <= i < |enters| ==> enters[i].EnterOp?)
    ensures Inv(Run(s, enters)) && Run(s, enters) == s.(lockNest := s.lockNest + |enters|)
    ensures Exits(ops) < |enters| ==> Run(Run(s, enters), ops).current == s.current
    ensures Exits(ops) == |enters| ==> Run(Run(s, enters), ops).lockNest == s.lockNest + Enters(ops)
  {
    AllEnter(s, enters);
    if Exits(ops) < |enters| { LockHolds(Run(s, enters), ops); }
    if Exits(ops) == |enters| { LockCounts(Run(s, enters), ops); }
  }

  lemma {:induction false} AllEnter(s: State, enters: seq<Op>)
    requires Inv(s) && (forall i :: 0 <= i < |enters| ==> enters[i].EnterOp?)
    ensures Inv(Run(s, enters)) && Run(s, enters) == s.(lockNest := s.lockNest + |enters|)
    decreases |enters|
  {
    if enters != [] {
      StepInv(s, enters[0]);
      AllEnter(Step(s, enters[0]), enters[1..]);
    }
  }
}
