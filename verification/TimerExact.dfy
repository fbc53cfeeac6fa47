/** What each timer call leaves behind, exactly, and at which ticks a timer that nobody touches
    fires over a whole run (rt-thread/src/timer.c). */
module TimerExact {
  import opened Words
  import opened Alignment
  import opened Lists
  import opened TimerSpec
  import opened TimerTheorems

  // ------------------------------------------------------------------- start

  function Power(base: nat, k: nat): nat { if k == 0 then 1 else base * Power(base, k - 1) }

  /** A tower is more than k rows high exactly when the counter's lowest k digits are 0. */
  lemma {:induction false} HeightExactly(n: nat, base: nat, levels: nat, k: nat)
    requires base >= 2 && 1 <= k < levels
    ensures Power(base, k) > 0 && (Height(n, base, levels) > k <==> n % Power(base, k) == 0)
    decreases k
  {
    var p := Power(base, k - 1);
    if k > 1 {
      HeightExactly(n / base, base, levels - 1, k - 1);
      DigitsZero(n, base, p);
    }
    PowerPositive(base, k);
  }

  lemma {:induction false} PowerPositive(base: nat, k: nat)
    requires base > 0
    ensures Power(base, k) > 0
  {
    if k > 0 { PowerPositive(base, k - 1); }
  }

  lemma DigitsZero(n: nat, a: nat, p: nat)
    requires a > 0 && p > 0
    ensures a * p > 0 && (n % (a * p) == 0 <==> n % a == 0 && n / a % p == 0)
  {
    var q, r := n / a, n % a;
    var x, y := q / p, q % p;
    Spread(n, a, p, q, r, x, y);
    ModAbove(x, a * p, a * y + r);
    NotZero(a, y);
  }

  lemma Spread(n: nat, a: nat, p: nat, q: nat, r: nat, x: nat, y: nat)
    requires n == a * q + r && q == p * x + y && r < a && y < p
    ensures n == (a * p) * x + (a * y + r) && a * y + r < a * p
  {
    assert a * (p * x + y) == (a * p) * x + a * y;
    TimesMonotone(a, y + 1, p);
    assert a * (y + 1) == a * y + a;
  }

  lemma NotZero(a: nat, y: nat)
    requires a > 0
    ensures a * y == 0 <==> y == 0
  {
  }

  /** Where a timer is put: every timer in front is due no later, every one behind is due
      later. */
  ghost predicate PutAt(l: seq<Id>, l': seq<Id>, t: Id, timers: map<Id, Timer>, i: nat) {
    && i < |l'| && l'[i] == t && l'[..i] + l'[i + 1..] == l
    && (forall j :: 0 <= j < i ==> Deadline(timers, l'[j]) <= Deadline(timers, t))
    && (forall j :: i < j < |l'| ==> Deadline(timers, l'[j]) > Deadline(timers, t))
  }

  lemma {:induction false} InsertPut(l: seq<Id>, t: Id, timers: map<Id, Timer>) returns (i: nat)
    requires forall j, k :: 0 <= j < k < |l| ==> Deadline(timers, l[j]) <= Deadline(timers, l[k])
    ensures PutAt(l, Insert(l, t, timers), t, timers, i)
  {
    if l == [] || Deadline(timers, t) < Deadline(timers, l[0]) {
      i := 0;
      PutFirst(l, t, timers);
    } else {
      hide PutAt, Deadline;
      i := InsertPut(l[1..], t, timers);
      PutLater(l, Insert(l[1..], t, timers), t, timers, i);
      i := i + 1;
    }
  }

  lemma PutFirst(l: seq<Id>, t: Id, timers: map<Id, Timer>)
    requires l != [] ==> Deadline(timers, t) < Deadline(timers, l[0])
    requires forall j, k :: 0 <= j < k < |l| ==> Deadline(timers, l[j]) <= Deadline(timers, l[k])
    ensures PutAt(l, [t] + l, t, timers, 0)
  {
    hide Deadline;
    var l' := [t] + l;
    assert l'[1..] == l && l'[..0] + l == l;
    forall j | 0 < j < |l'| ensures Deadline(timers, l'[j]) > Deadline(timers, t) {
      assert l'[j] == l[j - 1] && Deadline(timers, l[0]) <= Deadline(timers, l[j - 1]);
    }
  }

  lemma PutLater(l: seq<Id>, r: seq<Id>, t: Id, timers: map<Id, Timer>, i: nat)
    requires l != [] && PutAt(l[1..], r, t, timers, i) && Deadline(timers, l[0]) <= Deadline(timers, t)
    ensures PutAt(l, [l[0]] + r, t, timers, i + 1)
  {
    hide Deadline;
    var l' := [l[0]] + r;
    assert l'[..i + 1] == [l[0]] + r[..i] && l'[i + 2..] == r[i + 1..];
    assert l == [l[0]] + (r[..i] + r[i + 1..]);
    forall j | 0 <= j < |l'| ensures j > 0 ==> l'[j] == r[j - 1] { }
  }

  /** A start takes the timer out of the row and puts it, armed for now and its time later,
      behind every timer due no later; the counter that decides its tower moves on by one.
      No other timer changes. */
  lemma StartExactly(c: Config, s: State, t: Id, now: int)
    requires ConfigOk(c) && Inv(c, s) && t in s.timers
    ensures var s' := Start(c, s, t, now);
      && s'.random == (s.random + 1) % WORD && t in s'.timers
      && var x, x' := s.timers[t], s'.timers[t];
      && s'.timers == s.timers[t := x'] && x'.active && x'.deadline == now + x.init
      && x'.init == x.init && x'.periodic == x.periodic
      && 1 <= x'.height <= c.levels
      && (forall k: nat :: 1 <= k < c.levels ==>
           Power(c.base, k) > 0 && (x'.height > k <==> s'.random % Power(c.base, k) == 0))
      && exists i: nat :: PutAt(Without(s.bottom, t), s'.bottom, t, s'.timers, i)
  {
    hide Window, Towers, Insert, Without, Height;
    var s' := Start(c, s, t, now);
    forall k: nat | 1 <= k < c.levels
      ensures Power(c.base, k) > 0 && (s'.timers[t].height > k <==> s'.random % Power(c.base, k) == 0)
    {
      HeightExactly(s'.random, c.base, c.levels, k);
    }
    assert Ordered(s.bottom, s.timers);
    WithoutOrdered(s.bottom, t, s.timers);
    OrderedDeadlines(Without(s.bottom, t), t, s.timers, s'.timers);
    var i := InsertPut(Without(s.bottom, t), t, s'.timers);
  }

  lemma OrderedDeadlines(l: seq<Id>, t: Id, timers: map<Id, Timer>, timers': map<Id, Timer>)
    requires Ordered(l, timers) && t !in l && forall u :: u in timers && u != t ==>
      u in timers' && timers'[u] == timers[u]
    ensures forall j, k :: 0 <= j < k < |l| ==> Deadline(timers', l[j]) <= Deadline(timers', l[k])
  {
    forall j, k | 0 <= j < k < |l| ensures Deadline(timers', l[j]) <= Deadline(timers', l[k]) {
      assert l[j] in l && l[k] in l && Before(timers[l[j]], timers[l[k]]);
    }
  }

  /** Stopping an armed timer takes it out of the row and disarms it; one that is not armed is
      left as it is.  Setting its time or its kind changes that and nothing else, not even when
      it is due. */
  lemma StepOthers(c: Config, s: State, now: int, op: Op)
    requires World(c, s, now) && Allowed(s, now, op) && !op.TickOp?
    ensures var (s', now', fired) := Step(c, s, now, op); var t := op.t;
      && now' == now && fired == [] && t in s.timers && t in s'.timers
      && s'.timers == s.timers[t := s'.timers[t]]
      && (op.StopOp? ==> t !in s'.bottom && s'.bottom == Without(s.bottom, t)
                         && s'.timers[t] == s.timers[t].(active := false) && s'.random == s.random)
      && (op.SetTimeOp? || op.SetPeriodicOp? ==> s'.bottom == s.bottom && s'.random == s.random)
      && (op.SetTimeOp? ==> s'.timers[t].init == op.init && s.timers[t] == s'.timers[t].(init := s.timers[t].init))
      && (op.SetPeriodicOp? ==>
           s'.timers[t].periodic == op.periodic && s.timers[t] == s'.timers[t].(periodic := s.timers[t].periodic))
  {
    hide Window, Towers, Insert;
    var t := op.t;
    if op.StopOp? {
      if t in s.bottom { WithoutMembers(s.bottom, t); } else { WithoutAbsent(s.bottom, t); }
    }
  }

  // -------------------------------------------------------------- whole runs

  /** The ticks at which t fired. */
  function Fires(log: seq<Event>, t: Id): seq<int> {
    if log == [] then [] else (if log[0].t == t then [log[0].at] else []) + Fires(log[1..], t)
  }

  lemma FiresFirst(log: seq<Event>, t: Id)
    requires log != []
    ensures Fires(log, t) == (if log[0].t == t then [log[0].at] else []) + Fires(log[1..], t)
  {
  }

  lemma {:induction false} FiresConcat(a: seq<Event>, b: seq<Event>, t: Id)
    ensures Fires(a + b, t) == Fires(a, t) + Fires(b, t)
  {
    if a == [] {
      assert a + b == b;
    } else {
      hide Fires;
      assert (a + b)[1..] == a[1..] + b;
      FiresConcat(a[1..], b, t);
      FiresFirst(a, t);
      FiresFirst(a + b, t);
    }
  }

  lemma {:induction false} FiresStamp(l: seq<Id>, at: int, t: Id)
    requires Distinct(l)
    ensures Fires(Stamp(l, at), t) == if t in l then [at] else []
  {
    if l != [] {
      TailMembers(l);
      assert Stamp(l, at)[1..] == Stamp(l[1..], at);
      FiresStamp(l[1..], at, t);
    }
  }

  /** From d on, every p ticks, up to `until`. */
  function Beats(d: int, p: nat, until: int): seq<int>
    requires p > 0
    decreases if d > until then 0 else until - d + 1
  {
    if d > until then [] else [d] + Beats(d + p, p, until)
  }

  /** The ticks at which a timer that nobody touches is to fire up to `until`. */
  function Expected(x: Timer, now: int, until: int): seq<int>
    requires x.periodic ==> x.init > 0
  {
    if !x.active then []
    else if x.periodic then Beats(FireTime(x, now), x.init, until)
    else if FireTime(x, now) <= until then [FireTime(x, now)]
    else []
  }

  /** One step in which nobody touches t. */
  lemma StepExpected(c: Config, s: State, now: int, op: Op, t: Id, until: int)
    requires World(c, s, now) && Allowed(s, now, op) && Spares(op, t) && t in s.timers
    ensures var (s', now', fired) := Step(c, s, now, op);
      && t in s'.timers && Distinct(fired) && (s.timers[t].periodic ==> s.timers[t].init > 0)
      && (s'.timers[t].periodic ==> s'.timers[t].init > 0)
      && (now' <= until ==>
            Expected(s.timers[t], now, until) ==
              (if t in fired then [now'] else []) + Expected(s'.timers[t], now', until))
  {
    hide Window, Towers, Armed;
    assert t in s.bottom <==> s.timers[t].active by { ArmedListed(s, t); }
    if op.TickOp? {
      TickWorld(c, s, now);
      WorldInTime(c, s, now);
      CheckExact(c, s, now + 1);
      DueDistinct(c, s, now + 1);
      var (s', fired) := Check(c, s, now + 1);
      assert Served(s.timers[t], s'.timers[t], t in fired, now + 1);
      if now < until { TickExpected(s.timers[t], s'.timers[t], t in fired, now, until); }
    }
  }

  lemma ArmedListed(s: State, t: Id)
    requires Armed(s) && t in s.timers
    ensures t in s.bottom <==> s.timers[t].active
  {
  }

  lemma DueDistinct(c: Config, s: State, now: int)
    requires Inv(c, s)
    ensures Distinct(Due(s, now)) && forall t :: t in Due(s, now) ==> t in s.timers && s.timers[t].active
  {
    hide Window, Towers;
    assert Ordered(s.bottom, s.timers);
    DueExact(s.bottom, s.timers, now);
  }

  lemma TickExpected(x: Timer, y: Timer, due: bool, now: int, until: int)
    requires Served(x, y, due, now + 1) && (x.periodic ==> x.init > 0) && now + 1 <= until
    requires due ==> x.active
    requires x.active ==> (due <==> FireTime(x, now) == now + 1)
    ensures (y.periodic ==> y.init > 0)
    ensures Expected(x, now, until) == (if due then [now + 1] else []) + Expected(y, now + 1, until)
  {
  }

  /** Over every run, a timer that nobody touches fires at exactly these ticks, in this order:
      never if it is not armed, once at its deadline if it is armed for once, and if it is
      periodic from its deadline on, each time its period later.  A deadline that is now counts
      for the next tick. */
  lemma {:induction false} FiresExactly(c: Config, s: State, now: int, ops: seq<Op>, t: Id)
    requires World(c, s, now) && t in s.timers
    requires forall i :: 0 <= i < |ops| ==> Spares(ops[i], t)
    ensures s.timers[t].periodic ==> s.timers[t].init > 0
    ensures var (s', now', log) := Run(c, s, now, ops);
      now <= now' && Fires(log, t) == Expected(s.timers[t], now, now')
    decreases |ops|
  {
    hide World, Inv, Step, Expected, Fires;
    PeriodPositive(c, s, now, t);
    if ops == [] {
      NothingYet(c, s, now, t);
    } else if Allowed(s, now, ops[0]) {
      StepWorld(c, s, now, ops[0]);
      StepSparesOn(c, s, now, ops[0]);
      var (s1, now1, fired) := Step(c, s, now, ops[0]);
      var (s2, now2, log) := Run(c, s1, now1, ops[1..]);
      FiresExactly(c, s1, now1, ops[1..], t);
      StepExpected(c, s, now, ops[0], t, now2);
      FiresConcat(Stamp(fired, now1), log, t);
      FiresStamp(fired, now1, t);
    } else {
      FiresExactly(c, s, now, ops[1..], t);
    }
  }

  lemma PeriodPositive(c: Config, s: State, now: int, t: Id)
    requires World(c, s, now) && t in s.timers
    ensures s.timers[t].periodic ==> s.timers[t].init > 0
  {
  }

  lemma NothingYet(c: Config, s: State, now: int, t: Id)
    requires World(c, s, now) && t in s.timers
    ensures s.timers[t].periodic ==> s.timers[t].init > 0
    ensures Expected(s.timers[t], now, now) == [] == Fires([], t)
  {
  }

  lemma StepSparesOn(c: Config, s: State, now: int, op: Op)
    requires World(c, s, now) && Allowed(s, now, op)
    ensures now <= Step(c, s, now, op).1
    ensures forall t :: t in s.timers ==> t in Step(c, s, now, op).0.timers
  {
    StepWorld(c, s, now, op);
  }
}
