/** What the timer list promises (rt-thread/src/timer.c): nested sorted rows, and timers
    that fire in order, all of them and on time. */
module TimerTheorems {
  import opened Lists
  import opened TimerSpec

  // ----------------------------------------------------------------- the rows

  lemma {:induction false} ReachingMembers(l: seq<Id>, timers: map<Id, Timer>, h: nat)
    ensures forall t :: t in Reaching(l, timers, h) <==> t in l && t in timers && timers[t].height >= h
  {
    if l != [] {
      ReachingMembers(l[1..], timers, h);
      assert forall t :: t in l <==> t == l[0] || t in l[1..];
    }
  }

  lemma {:induction false} ReachingOrdered(l: seq<Id>, timers: map<Id, Timer>, h: nat)
    requires Ordered(l, timers) && Distinct(l)
    ensures Ordered(Reaching(l, timers, h), timers) && Distinct(Reaching(l, timers, h))
  {
    if l != [] {
      OrderedTail(l, timers);
      TailMembers(l);
      ReachingOrdered(l[1..], timers, h);
      ReachingMembers(l[1..], timers, h);
      if timers[l[0]].height >= h {
        OrderedCons(l[0], Reaching(l[1..], timers, h), timers);
        ConsMembers(l[0], Reaching(l[1..], timers, h));
      }
    }
  }

  /** a is b with some elements left out. */
  ghost predicate Sublist(a: seq<Id>, b: seq<Id>) {
    if a == [] then true
    else b != [] && if a[0] == b[0] then Sublist(a[1..], b[1..]) else Sublist(a, b[1..])
  }

  lemma {:induction false} ReachingNested(l: seq<Id>, timers: map<Id, Timer>, h: nat)
    requires Distinct(l)
    ensures Sublist(Reaching(l, timers, h + 1), Reaching(l, timers, h))
  {
    if l != [] {
      TailMembers(l);
      ReachingNested(l[1..], timers, h);
      ReachingMembers(l[1..], timers, h + 1);
    }
  }

  lemma {:induction false} ReachingAll(l: seq<Id>, timers: map<Id, Timer>)
    requires forall t :: t in l ==> t in timers && timers[t].height >= 1
    ensures Reaching(l, timers, 1) == l
  {
    if l != [] {
      assert l[0] in l && forall t :: t in l[1..] ==> t in l;
      ReachingAll(l[1..], timers);
    }
  }

  /** t goes before u, and the program's unsigned comparison of their ticks says so. */
  ghost predicate InWrapOrder(s: State, t: Id, u: Id) {
    && t in s.timers && u in s.timers && Before(s.timers[t], s.timers[u])
    && Minus(Tick(s.timers[u].deadline), Tick(s.timers[t].deadline)) < HALF
  }

  lemma Wrapped(s: State, t: Id, u: Id)
    requires Window(s) && t in s.bottom && u in s.bottom && t in s.timers && u in s.timers
    requires Before(s.timers[t], s.timers[u])
    ensures InWrapOrder(s, t, u)
  {
    WrappedOrder(s.timers[u].deadline, s.timers[t].deadline);
  }

  lemma RowWrapped(s: State, r: seq<Id>)
    requires Window(s) && Ordered(r, s.timers) && forall t :: t in r ==> t in s.bottom && t in s.timers
    ensures forall i, j :: 0 <= i < j < |r| ==> InWrapOrder(s, r[i], r[j])
  {
    hide Window, Before, InWrapOrder;
    forall i, j | 0 <= i < j < |r| ensures InWrapOrder(s, r[i], r[j]) {
      assert r[i] in r && r[j] in r && Before(s.timers[r[i]], s.timers[r[j]]);
      Wrapped(s, r[i], r[j]);
    }
  }

  /** Each row is sorted in the wrap-around order the program compares with, each row is a
      sublist of the one below, and the lowest holds exactly the armed timers, equal
      deadlines in order of start. */
  lemma RowsSorted(c: Config, s: State, k: nat)
    requires ConfigOk(c) && Inv(c, s) && k < c.levels
    ensures var r := Row(c, s, k);
      && Distinct(r)
      && (forall i, j :: 0 <= i < j < |r| ==> InWrapOrder(s, r[i], r[j]))
      && (k + 1 < c.levels ==> Sublist(r, Row(c, s, k + 1)))
      && (k + 1 == c.levels ==> r == s.bottom)
    ensures forall t :: t in Row(c, s, c.levels - 1) <==> t in s.timers && s.timers[t].active
  {
    hide Window, Before, InWrapOrder, Reaching, Sublist;
    var r := Row(c, s, k);
    assert Ordered(s.bottom, s.timers);
    ReachingOrdered(s.bottom, s.timers, c.levels - k);
    ReachingMembers(s.bottom, s.timers, c.levels - k);
    RowWrapped(s, r);
    if k + 1 < c.levels { ReachingNested(s.bottom, s.timers, c.levels - k - 1); }
    ReachingAll(s.bottom, s.timers);
  }

  // ------------------------------------------------------- the due timers

  /** The timers due at time now, from the front. */
  function DueOf(l: seq<Id>, timers: map<Id, Timer>, now: int): seq<Id> {
    if l == [] || Deadline(timers, l[0]) > now then [] else [l[0]] + DueOf(l[1..], timers, now)
  }

  function Due(s: State, now: int): seq<Id> { DueOf(s.bottom, s.timers, now) }

  /** The due timers are the front of the row, and no due timer is behind them. */
  lemma {:induction false} DueExact(l: seq<Id>, timers: map<Id, Timer>, now: int)
    requires Ordered(l, timers)
    ensures DueOf(l, timers, now) <= l
    ensures forall t :: t in DueOf(l, timers, now) <==> t in l && timers[t].deadline <= now
  {
    if l != [] {
      OrderedTail(l, timers);
      DueExact(l[1..], timers, now);
      assert forall t :: t in l <==> t == l[0] || t in l[1..];
    }
  }

  lemma {:induction false} DueInsert(l: seq<Id>, t: Id, timers: map<Id, Timer>, now: int)
    requires Deadline(timers, t) > now
    ensures DueOf(Insert(l, t, timers), timers, now) == DueOf(l, timers, now)
  {
    if l != [] && Deadline(timers, t) >= Deadline(timers, l[0]) { DueInsert(l[1..], t, timers, now); }
  }

  lemma {:induction false} DueSame(l: seq<Id>, timers: map<Id, Timer>, timers': map<Id, Timer>, now: int)
    requires forall t :: t in l ==> Deadline(timers', t) == Deadline(timers, t)
    ensures DueOf(l, timers', now) == DueOf(l, timers, now)
  {
    if l != [] {
      assert forall t :: t in l[1..] ==> t in l;
      DueSame(l[1..], timers, timers', now);
    }
  }

  /** The check comes in time: armed deadlines are near now, periods are positive, and a due
      timer that is armed again stays near those behind it. */
  ghost predicate InTime(s: State, now: int) {
    && (forall u :: u in s.bottom && u in s.timers ==> Near(s.timers[u].deadline, now))
    && (forall t :: t in s.timers && s.timers[t].periodic ==> s.timers[t].init > 0)
    && (forall t, u :: t in s.bottom && t in s.timers && s.timers[t].periodic && u in s.bottom && u in s.timers
                       && s.timers[t].deadline <= now && s.timers[t].deadline <= s.timers[u].deadline ==>
          now + s.timers[t].init - s.timers[u].deadline < HALF)
  }

  /** One turn of the check fires the first due timer and leaves the other due ones as they were. */
  lemma FireEffect(c: Config, s: State, now: int)
    requires ConfigOk(c) && Inv(c, s) && InTime(s, now) && Due(s, now) != []
    ensures s.bottom != [] && s.bottom[0] in s.timers
    ensures var s' := Fire(c, s, now);
      Inv(c, s') && InTime(s', now) && Due(s', now) == Due(s, now)[1..] && s'.timers.Keys == s.timers.Keys
  {
    assert s.bottom[0] in s.bottom;
    if s.timers[s.bottom[0]].periodic { RearmEffect(c, s, now); } else { RetireEffect(c, s, now); }
  }

  lemma RearmEffect(c: Config, s: State, now: int)
    requires ConfigOk(c) && Inv(c, s) && InTime(s, now) && Due(s, now) != []
    requires s.bottom[0] in s.timers && s.timers[s.bottom[0]].periodic
    ensures var s' := Start(c, s, s.bottom[0], now);
      Inv(c, s') && InTime(s', now) && Due(s', now) == Due(s, now)[1..]
  {
    hide Window, Towers, InTime, Height, Insert;
    var t, rest := s.bottom[0], s.bottom[1..];
    var s' := Start(c, s, t, now);
    RearmFits(s, now);
    StartInv(c, s, t, now);
    TailMembers(s.bottom);
    assert Without(s.bottom, t) == rest;
    DueSame(rest, s.timers, s'.timers, now);
    InsertMembers(rest, t, s'.timers);
    InitPositive(s, t, now);
    DueInsert(rest, t, s'.timers, now);
    RearmInTime(s, s', t, now);
  }

  lemma RearmFits(s: State, now: int)
    requires Armed(s) && InitOk(s) && InTime(s, now) && Due(s, now) != []
    requires s.bottom[0] in s.timers && s.timers[s.bottom[0]].periodic
    ensures FitsWindow(s, s.bottom[0], now)
  {
    assert Ordered(s.bottom, s.timers);
    forall u | u in s.bottom && u != s.bottom[0]
      ensures u in s.timers && s.timers[s.bottom[0]].deadline <= s.timers[u].deadline
    {
      var i :| 0 <= i < |s.bottom| && s.bottom[i] == u;
      assert Before(s.timers[s.bottom[0]], s.timers[s.bottom[i]]);
    }
  }

  lemma InitPositive(s: State, t: Id, now: int)
    requires InTime(s, now) && t in s.timers && s.timers[t].periodic
    ensures s.timers[t].init > 0
  {
  }

  lemma RearmInTime(s: State, s': State, t: Id, now: int)
    requires InTime(s, now) && t in s.timers && (forall x :: x in s.timers ==> s.timers[x].init < HALF)
    requires s.timers[t].periodic && s'.timers.Keys == s.timers.Keys
    requires forall x :: x in s'.timers && x != t ==> s'.timers[x] == s.timers[x]
    requires s'.timers[t].periodic && s'.timers[t].init == s.timers[t].init
    requires s'.timers[t].deadline == now + s.timers[t].init
    requires forall x :: x in s'.bottom ==> x == t || x in s.bottom
    ensures InTime(s', now)
  {
  }

  lemma RetireEffect(c: Config, s: State, now: int)
    requires ConfigOk(c) && Inv(c, s) && InTime(s, now) && Due(s, now) != [] && s.bottom[0] in s.timers
    ensures var s' := Disarm(s, s.bottom[0]);
      Inv(c, s') && InTime(s', now) && Due(s', now) == Due(s, now)[1..]
  {
    var t := s.bottom[0];
    DisarmInv(c, s, t);
    TailMembers(s.bottom);
    assert Without(s.bottom, t) == s.bottom[1..];
    DueSame(s.bottom[1..], s.timers, Disarm(s, t).timers, now);
  }

  /** `rt_timer_check` at time now: the state it leaves and the timers it fires. */
  ghost function Check(c: Config, s: State, now: int): (State, seq<Id>)
    requires ConfigOk(c) && Inv(c, s) && InTime(s, now)
    decreases |Due(s, now)|
  {
    if Due(s, now) == [] then (s, [])
    else
      FireEffect(c, s, now);
      var (s', fired) := Check(c, Fire(c, s, now), now);
      (s', [s.bottom[0]] + fired)
  }

  /** A timer's record after a check. */
  ghost predicate Served(a: Timer, b: Timer, due: bool, now: int) {
    if !due then b == a
    else if a.periodic then b.active && b.deadline == now + a.init && b.init == a.init && b.periodic
    else b == a.(active := false)
  }

  lemma FireServes(c: Config, s: State, now: int)
    requires ConfigOk(c) && Inv(c, s) && InTime(s, now) && Due(s, now) != []
    ensures s.bottom != [] && s.bottom[0] in s.timers
    ensures var s' := Fire(c, s, now); var t := s.bottom[0];
      && s'.timers.Keys == s.timers.Keys && Served(s.timers[t], s'.timers[t], true, now)
      && (forall u :: u in s.timers && u != t ==> s'.timers[u] == s.timers[u])
  {
    assert s.bottom[0] in s.bottom;
  }

  /** The check fires exactly the timers due, each once, in the order of deadlines and then
      of starts; it re-arms the periodic ones for now plus their period and disarms the
      others; all deadlines left are in the future. */
  lemma {:induction false} CheckExact(c: Config, s: State, now: int)
    requires ConfigOk(c) && Inv(c, s) && InTime(s, now)
    ensures var (s', fired) := Check(c, s, now);
      && Inv(c, s') && fired == Due(s, now)
      && s'.timers.Keys == s.timers.Keys
      && (forall t :: t in s'.bottom && t in s'.timers ==> s'.timers[t].deadline > now)
      && (forall t :: t in s.timers ==> Served(s.timers[t], s'.timers[t], t in fired, now))
    decreases |Due(s, now)|
  {
    hide Fire, InTime, Window;
    assert Ordered(s.bottom, s.timers);
    if Due(s, now) == [] {
      DueExact(s.bottom, s.timers, now);
    } else {
      FireEffect(c, s, now);
      FireServes(c, s, now);
      CheckExact(c, Fire(c, s, now), now);
      DueOnce(s.bottom, s.timers, now);
    }
  }

  lemma DueOnce(l: seq<Id>, timers: map<Id, Timer>, now: int)
    requires Ordered(l, timers) && Distinct(l) && l != []
    ensures DueOf(l, timers, now) != [] ==>
      DueOf(l, timers, now)[0] == l[0] && l[0] !in DueOf(l, timers, now)[1..]
  {
    OrderedTail(l, timers);
    TailMembers(l);
    DueExact(l[1..], timers, now);
  }

  // ---------------------------------------------------------------- whole runs

  /** The tick interrupt advances the time by one and checks; between ticks, timers are
      started, stopped and reconfigured. */
  datatype Op =
    | TickOp
    | StartOp(t: Id)
    | StopOp(t: Id)
    | SetTimeOp(t: Id, init: nat)
    | SetPeriodicOp(t: Id, periodic: bool)

  /** A time the program accepts, and a positive one if the timer is periodic.  A timer that is
      due already, because it was started with time 0 since the last tick, must not be made
      periodic with the longest time there is. */
  ghost predicate TimeOk(x: Timer, now: int) {
    x.init < HALF && (x.periodic ==> x.init > 0 && (x.active && x.deadline <= now ==> x.init < HALF - 1))
  }

  ghost predicate Allowed(s: State, now: int, op: Op) {
    match op
    case TickOp => true
    case StartOp(t) => t in s.timers
    case StopOp(t) => t in s.timers
    case SetTimeOp(t, init) => t in s.timers && TimeOk(s.timers[t].(init := init), now)
    case SetPeriodicOp(t, p) => t in s.timers && TimeOk(s.timers[t].(periodic := p), now)
  }

  ghost predicate World(c: Config, s: State, now: int) {
    && ConfigOk(c) && Inv(c, s)
    && (forall t :: t in s.timers ==> TimeOk(s.timers[t], now))
    && (forall t :: t in s.bottom && t in s.timers ==> now <= s.timers[t].deadline < now + HALF)
  }

  /** The tick at which an armed timer is to fire: its deadline, or the next tick if that is
      now. */
  function FireTime(x: Timer, now: int): int {
    if x.deadline > now then x.deadline else now + 1
  }

  /** `rt_timer_stop`: an error, and no effect, when the timer is not armed. */
  function Stop(s: State, t: Id): State
    requires t in s.timers
  {
    if s.timers[t].active then Disarm(s, t) else s
  }

  lemma WorldInTime(c: Config, s: State, now: int)
    requires World(c, s, now)
    ensures InTime(s, now + 1)
  {
  }

  ghost function Step(c: Config, s: State, now: int, op: Op): (State, int, seq<Id>)
    requires World(c, s, now) && Allowed(s, now, op)
  {
    match op
    case TickOp => WorldInTime(c, s, now); var (s', fired) := Check(c, s, now + 1); (s', now + 1, fired)
    case StartOp(t) => (Start(c, s, t, now), now, [])
    case StopOp(t) => (Stop(s, t), now, [])
    case SetTimeOp(t, init) => (s.(timers := s.timers[t := s.timers[t].(init := init)]), now, [])
    case SetPeriodicOp(t, p) => (s.(timers := s.timers[t := s.timers[t].(periodic := p)]), now, [])
  }

  /** A change of a timer that leaves its place in the row alone. */
  lemma ReconfigureInv(c: Config, s: State, t: Id, x: Timer)
    requires ConfigOk(c) && Inv(c, s) && t in s.timers && x.init < HALF
    requires x == s.timers[t].(init := x.init, periodic := x.periodic)
    ensures Inv(c, s.(timers := s.timers[t := x]))
  {
    var timers := s.timers[t := x];
    forall i, j | 0 <= i < j < |s.bottom| ensures Before(timers[s.bottom[i]], timers[s.bottom[j]]) {
      assert Before(s.timers[s.bottom[i]], s.timers[s.bottom[j]]);
    }
  }

  lemma ReconfigureWorld(c: Config, s: State, t: Id, x: Timer, now: int)
    requires World(c, s, now) && t in s.timers && TimeOk(x, now)
    requires x == s.timers[t].(init := x.init, periodic := x.periodic)
    ensures World(c, s.(timers := s.timers[t := x]), now) && s.timers[t := x].Keys == s.timers.Keys
  {
    ReconfigureInv(c, s, t, x);
  }

  /** With a check at every tick the deadlines never leave the window, and each timer fires
      at its tick, neither early nor late. */
  lemma StepWorld(c: Config, s: State, now: int, op: Op)
    requires World(c, s, now) && Allowed(s, now, op)
    ensures var (s', now', fired) := Step(c, s, now, op);
      && World(c, s', now') && s'.timers.Keys == s.timers.Keys
      && (forall t :: t in fired ==> t in s.timers && s.timers[t].active && FireTime(s.timers[t], now) == now')
  {
    match op
    case TickOp => TickWorld(c, s, now);
    case StartOp(t) => StartWorld(c, s, t, now);
    case StopOp(t) => StopWorld(c, s, t, now);
    case SetTimeOp(t, init) => ReconfigureWorld(c, s, t, s.timers[t].(init := init), now);
    case SetPeriodicOp(t, p) => ReconfigureWorld(c, s, t, s.timers[t].(periodic := p), now);
  }

  lemma TickWorld(c: Config, s: State, now: int)
    requires World(c, s, now)
    ensures InTime(s, now + 1)
    ensures var (s', fired) := Check(c, s, now + 1);
      && World(c, s', now + 1) && s'.timers.Keys == s.timers.Keys
      && (forall t :: t in fired ==> t in s.timers && s.timers[t].active && FireTime(s.timers[t], now) == now + 1)
      && (forall t :: t in s.timers && s.timers[t].active ==> (t in fired <==> FireTime(s.timers[t], now) == now + 1))
      && (forall t :: t in s.timers && t !in fired ==> s'.timers[t] == s.timers[t])
  {
    WorldInTime(c, s, now);
    CheckExact(c, s, now + 1);
    assert Ordered(s.bottom, s.timers);
    DueExact(s.bottom, s.timers, now + 1);
    var (s', fired) := Check(c, s, now + 1);
    forall t | t in s.timers
      ensures TimeOk(s'.timers[t], now + 1)
      ensures s'.timers[t].active ==> now + 1 < s'.timers[t].deadline < now + 1 + HALF
    {
      assert Served(s.timers[t], s'.timers[t], t in fired, now + 1);
    }
  }

  lemma StartWorld(c: Config, s: State, t: Id, now: int)
    requires World(c, s, now) && t in s.timers
    ensures World(c, Start(c, s, t, now), now)
  {
    StartInv(c, s, t, now);
  }

  lemma StopWorld(c: Config, s: State, t: Id, now: int)
    requires World(c, s, now) && t in s.timers
    ensures World(c, Stop(s, t), now)
  {
    if s.timers[t].active { DisarmInv(c, s, t); }
  }

  /** What fired, and when. */
  datatype Event = Event(t: Id, at: int)

  function Stamp(l: seq<Id>, at: int): seq<Event> {
    seq(|l|, i requires 0 <= i < |l| => Event(l[i], at))
  }

  ghost function Run(c: Config, s: State, now: int, ops: seq<Op>): (State, int, seq<Event>)
    requires World(c, s, now)
    decreases |ops|
  {
    if ops == [] then (s, now, [])
    else if Allowed(s, now, ops[0]) then
      StepWorld(c, s, now, ops[0]);
      var (s1, now1, fired) := Step(c, s, now, ops[0]);
      var (s2, now2, log) := Run(c, s1, now1, ops[1..]);
      (s2, now2, Stamp(fired, now1) + log)
    else Run(c, s, now, ops[1..])
  }

  /** Leaves the timer t alone, apart from ticks. */
  predicate Spares(op: Op, t: Id) {
    match op
    case TickOp => true
    case StartOp(u) => u != t
    case StopOp(u) => u != t
    case SetTimeOp(u, _) => u != t
    case SetPeriodicOp(u, _) => u != t
  }

  lemma StepSpares(c: Config, s: State, now: int, op: Op, t: Id)
    requires World(c, s, now) && Allowed(s, now, op) && Spares(op, t) && t in s.timers && s.timers[t].active
    ensures var (s', now', fired) := Step(c, s, now, op);
      && t in s'.timers && now <= now' <= FireTime(s.timers[t], now)
      && (t in fired <==> now' == FireTime(s.timers[t], now))
      && (t !in fired ==> s'.timers[t] == s.timers[t] && FireTime(s.timers[t], now') == FireTime(s.timers[t], now))
  {
    assert t in s.bottom;
    if op.TickOp? { TickWorld(c, s, now); }
  }

  /** An armed timer that nobody touches fires at its deadline, or at the next tick if that is
      now, and not before: until then it is still armed and has not fired, and once the time
      has come the log says it fired then. */
  lemma {:induction false} FiresOnTime(c: Config, s: State, now: int, ops: seq<Op>, t: Id)
    requires World(c, s, now) && t in s.timers && s.timers[t].active
    requires forall i :: 0 <= i < |ops| ==> Spares(ops[i], t)
    ensures var (s', now', log) := Run(c, s, now, ops); var d := FireTime(s.timers[t], now);
      && (now' < d ==> t in s'.timers && s'.timers[t] == s.timers[t] && forall e :: e in log ==> e.t != t)
      && (now' >= d ==> Event(t, d) in log && forall e :: e in log && e.t == t ==> e.at >= d)
    decreases |ops|
  {
    assert t in s.bottom;
    if ops != [] {
      if Allowed(s, now, ops[0]) {
        StepWorld(c, s, now, ops[0]);
        StepSpares(c, s, now, ops[0], t);
        var (s1, now1, fired) := Step(c, s, now, ops[0]);
        StampMembers(fired, now1);
        if t !in fired {
          FiresOnTime(c, s1, now1, ops[1..], t);
        } else {
          LogAfter(c, s1, now1, ops[1..]);
        }
      } else {
        FiresOnTime(c, s, now, ops[1..], t);
      }
    }
  }

  lemma StampMembers(l: seq<Id>, at: int)
    ensures forall e :: e in Stamp(l, at) <==> e.t in l && e.at == at
  {
    forall e ensures e in Stamp(l, at) <==> e.t in l && e.at == at {
      if e.t in l && e.at == at {
        var i :| 0 <= i < |l| && l[i] == e.t;
        assert Stamp(l, at)[i] == e;
      }
    }
  }

  lemma {:induction false} LogAfter(c: Config, s: State, now: int, ops: seq<Op>)
    requires World(c, s, now)
    ensures var (s', now', log) := Run(c, s, now, ops);
      now <= now' && forall e :: e in log ==> e.at >= now
    decreases |ops|
  {
    if ops != [] {
      if Allowed(s, now, ops[0]) {
        StepWorld(c, s, now, ops[0]);
        var (s1, now1, fired) := Step(c, s, now, ops[0]);
        StampMembers(fired, now1);
        LogAfter(c, s1, now1, ops[1..]);
      } else {
        LogAfter(c, s, now, ops[1..]);
      }
    }
  }
}
