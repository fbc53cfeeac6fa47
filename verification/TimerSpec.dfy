/** Timers under a wrapping tick (rt-thread/src/timer.c).  The specification gives each
    armed timer its deadline as an unbounded number, the height of its tower in the skip
    list, and its place in the order of starts; the program keeps only the deadline's
    remainder and compares remainders. */
module TimerSpec {
  import opened Words
  import opened Lists

  type Id = nat

  /** RT_TICK_MAX / 2. */
  const HALF := 0x7FFF_FFFF

  datatype Timer = Timer(init: nat, periodic: bool, active: bool, deadline: int, height: nat, order: nat)

  /** `levels` rows, and a counter tested in base `base` (the mask plus one). */
  datatype Config = Config(levels: nat, base: nat)

  ghost predicate ConfigOk(c: Config) { c.levels >= 1 && (c.base == 2 || c.base == 4) }

  /** `bottom` is the lowest row; `random` the insert counter; `starts` numbers the starts. */
  datatype State = State(timers: map<Id, Timer>, bottom: seq<Id>, random: nat, starts: nat)

  // ------------------------------------------------------- wrapping comparison

  function Tick(d: int): nat { d % WORD }

  function Minus(a: nat, b: nat): nat { (a - b) % WORD }

  ghost predicate Near(a: int, b: int) { -HALF < a - b < HALF }

  /** The unsigned difference the program looks at tells the order of deadlines that are
      less than half the tick range apart, across a wrap of the tick, too. */
  lemma WrappedOrder(a: int, b: int)
    requires Near(a, b)
    ensures Minus(Tick(a), Tick(b)) < HALF <==> a >= b
    ensures Minus(Tick(a), Tick(b)) == 0 <==> a == b
  {
    assert (Tick(a) - Tick(b)) % WORD == (a - b) % WORD by {
      assert Tick(a) - Tick(b) == a - b - WORD * (a / WORD - b / WORD);
    }
  }

  /** Of deadlines less than the tick range apart it tells the order exactly when the first is
      less than half the range ahead, and at most half the range and two ticks behind. */
  lemma WrappedOrderExactly(a: int, b: int)
    requires -WORD < a - b < WORD
    ensures (Minus(Tick(a), Tick(b)) < HALF <==> a >= b) <==> -(HALF + 2) <= a - b < HALF
  {
    TickDifference(a, b);
  }

  lemma TickDifference(a: int, b: int)
    requires -WORD < a - b < WORD
    ensures Minus(Tick(a), Tick(b)) == if a >= b then a - b else a - b + WORD
  {
    assert (Tick(a) - Tick(b)) % WORD == (a - b) % WORD by {
      assert Tick(a) - Tick(b) == a - b - WORD * (a / WORD - b / WORD);
    }
  }

  /** So of two deadlines either may be compared with the other exactly when they are less than
      half the range apart. */
  lemma NearExactly(a: int, b: int)
    requires -WORD < a - b < WORD
    ensures (Minus(Tick(a), Tick(b)) < HALF <==> a >= b) && (Minus(Tick(b), Tick(a)) < HALF <==> b >= a) <==> Near(a, b)
  {
    WrappedOrderExactly(a, b);
    WrappedOrderExactly(b, a);
  }

  /** Half the range apart, the later one looks earlier. */
  lemma HalfApartMisleads(b: int)
    ensures Minus(Tick(b + HALF), Tick(b)) >= HALF
  {
    TickDifference(b + HALF, b);
  }

  // ----------------------------------------------------------------- the rows

  function Deadline(timers: map<Id, Timer>, t: Id): int {
    if t in timers then timers[t].deadline else 0
  }

  /** Behind every timer due no later, in front of the first one due later. */
  function Insert(l: seq<Id>, t: Id, timers: map<Id, Timer>): seq<Id> {
    if l == [] || Deadline(timers, t) < Deadline(timers, l[0]) then [t] + l
    else [l[0]] + Insert(l[1..], t, timers)
  }

  /** The timers of l whose towers reach the row. */
  function Reaching(l: seq<Id>, timers: map<Id, Timer>, height: nat): seq<Id> {
    if l == [] then []
    else if l[0] in timers && timers[l[0]].height >= height then [l[0]] + Reaching(l[1..], timers, height)
    else Reaching(l[1..], timers, height)
  }

  /** Row k, counted from the top: the timers with towers of at least levels - k. */
  function Row(c: Config, s: State, k: nat): seq<Id>
    requires k < c.levels
  {
    Reaching(s.bottom, s.timers, c.levels - k)
  }

  /** How many rows the next insertion takes: one, and one more for each zero digit of the
      counter. */
  function Height(n: nat, base: nat, levels: nat): (h: nat)
    requires base >= 2 && levels >= 1
    ensures 1 <= h <= levels
  {
    if levels > 1 && n % base == 0 then 1 + Height(n / base, base, levels - 1) else 1
  }

  // ------------------------------------------------------------- the invariant

  ghost predicate Before(a: Timer, b: Timer) {
    a.deadline < b.deadline || (a.deadline == b.deadline && a.order < b.order)
  }

  /** The lowest row holds exactly the armed timers, once each, by deadline and then by
      order of start. */
  ghost predicate Armed(s: State) {
    && Distinct(s.bottom)
    && (forall t :: t in s.bottom <==> t in s.timers && s.timers[t].active)
    && (forall i, j :: 0 <= i < j < |s.bottom| ==> Before(s.timers[s.bottom[i]], s.timers[s.bottom[j]]))
    && (forall t :: t in s.bottom ==> s.timers[t].order < s.starts)
  }

  ghost predicate Towers(c: Config, s: State) {
    forall t :: t in s.bottom && t in s.timers ==> 1 <= s.timers[t].height <= c.levels
  }

  /** Armed deadlines span less than half the tick range. */
  ghost predicate Window(s: State) {
    forall t, u :: t in s.bottom && u in s.bottom && t in s.timers && u in s.timers ==>
      Near(s.timers[t].deadline, s.timers[u].deadline)
  }

  ghost predicate InitOk(s: State) {
    forall t :: t in s.timers ==> s.timers[t].init < HALF
  }

  ghost predicate Inv(c: Config, s: State) {
    Armed(s) && Towers(c, s) && Window(s) && InitOk(s) && s.random < WORD
  }

  // ------------------------------------------------------------- the operations

  /** `rt_timer_start` at time now. */
  function Start(c: Config, s: State, t: Id, now: int): State
    requires c.levels >= 1 && c.base >= 2 && t in s.timers
  {
    var random := (s.random + 1) % WORD;
    var armed := s.timers[t].(active := true, deadline := now + s.timers[t].init,
                              height := Height(random, c.base, c.levels), order := s.starts);
    var timers := s.timers[t := armed];
    State(timers, Insert(Without(s.bottom, t), t, timers), random, s.starts + 1)
  }

  /** `_timer_remove` and the change of status in `rt_timer_stop`. */
  function Disarm(s: State, t: Id): State
    requires t in s.timers
  {
    s.(bottom := Without(s.bottom, t), timers := s.timers[t := s.timers[t].(active := false)])
  }

  /** One turn of `rt_timer_check`: the front timer leaves, and a periodic one is started
      again. */
  function Fire(c: Config, s: State, now: int): State
    requires c.levels >= 1 && c.base >= 2 && s.bottom != [] && s.bottom[0] in s.timers
  {
    var t := s.bottom[0];
    if s.timers[t].periodic then Start(c, s, t, now) else Disarm(s, t)
  }

  /** The deadline a start at time now would set is near every other armed one. */
  ghost predicate FitsWindow(s: State, t: Id, now: int)
    requires t in s.timers
  {
    forall u :: u in s.bottom && u != t && u in s.timers ==> Near(now + s.timers[t].init, s.timers[u].deadline)
  }

  // ------------------------------------------------------------------ sorting

  lemma {:induction false} InsertMembers(l: seq<Id>, t: Id, timers: map<Id, Timer>)
    requires Distinct(l) && t !in l
    ensures Distinct(Insert(l, t, timers)) && forall x :: x in Insert(l, t, timers) <==> x in l || x == t
  {
    if l == [] || Deadline(timers, t) < Deadline(timers, l[0]) {
      ConsMembers(t, l);
    } else {
      TailMembers(l);
      InsertMembers(l[1..], t, timers);
      ConsMembers(l[0], Insert(l[1..], t, timers));
    }
  }

  ghost predicate Ordered(l: seq<Id>, timers: map<Id, Timer>) {
    && (forall t :: t in l ==> t in timers)
    && forall i, j :: 0 <= i < j < |l| ==> Before(timers[l[i]], timers[l[j]])
  }

  lemma OrderedCons(t: Id, l: seq<Id>, timers: map<Id, Timer>)
    requires Ordered(l, timers) && t in timers && forall u :: u in l ==> u in timers && Before(timers[t], timers[u])
    ensures Ordered([t] + l, timers)
  {
    var r := [t] + l;
    forall i, j | 0 <= i < j < |r| ensures Before(timers[r[i]], timers[r[j]]) {
      assert r[j] == l[j - 1] && l[j - 1] in l;
      if i > 0 { assert r[i] == l[i - 1]; }
    }
  }

  lemma OrderedTail(l: seq<Id>, timers: map<Id, Timer>)
    requires Ordered(l, timers) && l != []
    ensures Ordered(l[1..], timers) && l[0] in timers
    ensures forall u :: u in l[1..] ==> u in timers && Before(timers[l[0]], timers[u])
  {
    assert l[0] in l;
    forall u | u in l[1..] ensures u in timers && Before(timers[l[0]], timers[u]) {
      var i :| 0 <= i < |l[1..]| && l[1..][i] == u;
      assert l[i + 1] == u && l[i + 1] in l;
    }
  }

  /** A timer started last keeps the row ordered: behind equal deadlines. */
  lemma {:induction false} InsertOrdered(l: seq<Id>, t: Id, timers: map<Id, Timer>)
    requires Ordered(l, timers) && Distinct(l) && t in timers && t !in l
    requires forall u :: u in l ==> u in timers && timers[u].order < timers[t].order
    ensures Ordered(Insert(l, t, timers), timers)
  {
    if l == [] || Deadline(timers, t) < Deadline(timers, l[0]) {
      if l != [] { OrderedTail(l, timers); TailMembers(l); }
      OrderedCons(t, l, timers);
    } else {
      OrderedTail(l, timers);
      TailMembers(l);
      InsertOrdered(l[1..], t, timers);
      InsertMembers(l[1..], t, timers);
      OrderedCons(l[0], Insert(l[1..], t, timers), timers);
    }
  }

  lemma {:induction false} WithoutOrdered(l: seq<Id>, t: Id, timers: map<Id, Timer>)
    requires Ordered(l, timers) && Distinct(l)
    ensures Ordered(Without(l, t), timers) && Distinct(Without(l, t))
    ensures forall x :: x in Without(l, t) <==> x in l && x != t
  {
    if l != [] {
      OrderedTail(l, timers);
      TailMembers(l);
      if l[0] != t {
        WithoutOrdered(l[1..], t, timers);
        ConsMembers(l[0], Without(l[1..], t));
        OrderedCons(l[0], Without(l[1..], t), timers);
      }
    }
  }

  lemma OrderedSame(l: seq<Id>, timers: map<Id, Timer>, timers': map<Id, Timer>)
    requires Ordered(l, timers) && forall t :: t in l ==> t in timers' && (t in timers ==> timers'[t] == timers[t])
    ensures Ordered(l, timers')
  {
    forall i, j | 0 <= i < j < |l| ensures Before(timers'[l[i]], timers'[l[j]]) {
      assert l[i] in l && l[j] in l;
    }
  }

  // ---------------------------------------------------------------- invariance

  /** Starting a timer keeps the rows ordered, and the tower of every timer as it was built. */
  lemma StartInv(c: Config, s: State, t: Id, now: int)
    requires ConfigOk(c) && Inv(c, s) && t in s.timers && FitsWindow(s, t, now)
    ensures Inv(c, Start(c, s, t, now))
  {
    var s' := Start(c, s, t, now);
    var rest := Without(s.bottom, t);
    assert Ordered(s.bottom, s.timers);
    WithoutOrdered(s.bottom, t, s.timers);
    OrderedSame(rest, s.timers, s'.timers);
    InsertOrdered(rest, t, s'.timers);
    InsertMembers(rest, t, s'.timers);
  }

  /** Stopping a timer keeps the rows of the others. */
  lemma DisarmInv(c: Config, s: State, t: Id)
    requires ConfigOk(c) && Inv(c, s) && t in s.timers
    ensures Inv(c, Disarm(s, t))
  {
    var s' := Disarm(s, t);
    assert Ordered(s.bottom, s.timers);
    WithoutOrdered(s.bottom, t, s.timers);
    OrderedSame(s'.bottom, s.timers, s'.timers);
  }
}
