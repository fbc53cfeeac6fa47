/** The timer list object (rt-thread/src/timer.c): a skip list of circular rows, each
    threaded through the list head and the timers whose towers reach it.  Timers keep only
    the low 32 bits of their deadlines. */
module Timer {
  import opened Words
  import opened Lists
  import opened Rings
  import opened TimerSpec
  import T = TimerTheorems

  /** The list head, on every row. */
  const HEAD := -1

  datatype Node = Node(init: nat, periodic: bool, active: bool, tick: nat)

  /** A row, and links to themselves for the timers that are not on it. */
  ghost predicate RowOk(next: Links, prev: Links, row: seq<Id>, ids: set<Id>) {
    && Ring(next, prev, [HEAD] + row)
    && (forall t :: t in ids && t !in row ==> t in next && t in prev && next[t] == t && prev[t] == t)
  }

  /** The fields agree with the model; ticks of armed timers are their deadlines' low bits. */
  ghost predicate NodesOk(nodes: map<Id, Node>, randomNr: nat, s: State) {
    && nodes.Keys == s.timers.Keys && randomNr == s.random
    && (forall t :: t in nodes ==>
          nodes[t] == Node(s.timers[t].init, s.timers[t].periodic, s.timers[t].active, nodes[t].tick))
    && (forall t :: t in s.bottom && t in nodes && t in s.timers ==> nodes[t].tick == Tick(s.timers[t].deadline))
  }

  class TimerList {
    const c: Config
    var next: seq<Links>
    var prev: seq<Links>
    var nodes: map<Id, Node>
    var randomNr: nat
    ghost var model: State

    ghost predicate RowsOk(s: State)
      reads this
    {
      && |next| == |prev| == c.levels
      && forall k :: 0 <= k < c.levels ==> RowOk(next[k], prev[k], Row(c, s, k), s.timers.Keys)
    }

    ghost predicate Valid()
      reads this
    {
      ConfigOk(c) && Inv(c, model) && RowsOk(model) && NodesOk(nodes, randomNr, model)
    }

    /** `rt_system_timer_init`: empty rows. */
    constructor (c: Config)
      requires ConfigOk(c)
      ensures this.c == c && Valid() && model == State(map[], [], 0, 0)
    {
      this.c := c;
      next := seq(c.levels, _ => map[HEAD := HEAD]);
      prev := seq(c.levels, _ => map[HEAD := HEAD]);
      nodes := map[];
      randomNr := 0;
      model := State(map[], [], 0, 0);
    }

    /** `_timer_init`: a timer that is not armed and linked to itself on every row. */
    method Init(t: Id, time: nat, periodic: bool)
      requires Valid() && t !in nodes && time < HALF
      modifies this
      ensures Valid()
      ensures model == old(model).(timers := old(model).timers[t := TimerSpec.Timer(time, periodic, false, 0, 1, 0)])
    {
      hide RowOk, Row, Inv, NodesOk;
      ghost var s := model;
      ghost var s' := s.(timers := s.timers[t := TimerSpec.Timer(time, periodic, false, 0, 1, 0)]);
      InitState(c, s, nodes, randomNr, t, time, periodic);
      var k: nat := 0;
      while k < c.levels
        invariant k <= c.levels && |next| == |prev| == c.levels
        invariant forall j :: 0 <= j < k ==> RowOk(next[j], prev[j], Row(c, s', j), s'.timers.Keys)
        invariant forall j :: k <= j < c.levels ==> next[j] == old(next)[j] && prev[j] == old(prev)[j]
        modifies this`next, this`prev
      {
        InitRow(c, s, t, s'.timers[t], k, next[k], prev[k]);
        next := next[k := next[k][t := t]];
        prev := prev[k := prev[k][t := t]];
        k := k + 1;
      }
      nodes := nodes[t := Node(time, periodic, false, 0)];
      model := s';
    }

    // ---------------------------------------------------------------- removal

    /** `_timer_remove`: off every row; a row it is not on is left as it is. */
    method RemoveRows(t: Id, ghost rows: seq<seq<Id>>, ghost ids: set<Id>)
      requires |next| == |prev| == c.levels == |rows| && t in ids
      requires forall k :: 0 <= k < c.levels ==> RowOk(next[k], prev[k], rows[k], ids) && Distinct(rows[k])
      modifies this`next, this`prev
      ensures |next| == |prev| == c.levels
      ensures forall k :: 0 <= k < c.levels ==> RowOk(next[k], prev[k], Without(rows[k], t), ids)
    {
      hide RowOk, Distinct;
      var k := 0;
      while k < c.levels
        invariant k <= c.levels && |next| == |prev| == c.levels
        invariant forall j :: 0 <= j < k ==> RowOk(next[j], prev[j], Without(rows[j], t), ids)
        invariant forall j :: k <= j < c.levels ==> RowOk(next[j], prev[j], rows[j], ids)
      {
        RemoveNode(next[k], prev[k], rows[k], t, ids);
        var a, b := prev[k][t], next[k][t];
        next := next[k := next[k][a := b]];
        prev := prev[k := prev[k][b := a]];
        next := next[k := next[k][t := t]];
        prev := prev[k := prev[k][t := t]];
        k := k + 1;
      }
    }

    /** Off every row, and no longer armed. */
    method Remove(t: Id)
      requires Valid() && t in nodes
      modifies this`next, this`prev, this`nodes, this`model
      ensures Valid() && model == Disarm(old(model), t)
      ensures nodes == old(nodes)[t := old(nodes)[t].(active := false)]
    {
      hide RowOk, Ordered, Row, Armed, Window, Towers;
      ghost var s := model;
      DisarmInv(c, s, t);
      DisarmMembers(c, s, t);
      forall k | 0 <= k < c.levels
        ensures Distinct(Row(c, s, k)) && Row(c, Disarm(s, t), k) == Without(Row(c, s, k), t)
      {
        RowDistinct(c, s, k);
        RowDisarm(c, s, t, k);
      }
      RemoveRows(t, seq(c.levels, k requires 0 <= k < c.levels => Row(c, s, k)), s.timers.Keys);
      nodes := nodes[t := nodes[t].(active := false)];
      model := Disarm(s, t);
      assert model.timers.Keys == s.timers.Keys;
      assert RowsOk(model);
      assert NodesOk(nodes, randomNr, model);
    }

    // -------------------------------------------------------------- insertion

    /** One row of the search in `rt_timer_start`: on from `start`, past every timer due no
        later, looking at wrapped differences only. */
    method FindRow(k: nat, start: int, tick: nat, ghost i0: nat, ghost row: seq<Id>, ghost s: State, ghost d: int)
      returns (h: int)
      requires k < |next| == |prev| && Ring(next[k], prev[k], [HEAD] + row)
      requires i0 <= |row| && start == ([HEAD] + row)[i0] && forall j :: 0 <= j < i0 ==> Deadline(s.timers, row[j]) <= d
      requires tick == Tick(d)
      requires forall u :: u in row ==>
        u in nodes && nodes[u].tick == Tick(Deadline(s.timers, u)) && Near(Deadline(s.timers, u), d)
      ensures h == ([HEAD] + row)[PlaceOf(row, d, s.timers)]
    {
      ghost var ring: seq<int> := [HEAD] + row;
      ghost var i: nat := i0;
      h := start;
      RingNext(next[k], prev[k], ring, 0);
      while h != prev[k][HEAD]
        invariant i <= |row| && h == ring[i] && forall j :: 0 <= j < i ==> Deadline(s.timers, row[j]) <= d
        decreases |row| - i
      {
        RingNext(next[k], prev[k], ring, i);
        var p := next[k][h];
        assert p == row[i] && p in row;
        WrappedOrder(Deadline(s.timers, p), d);
        var difference := Minus(nodes[p].tick, tick);
        if difference == 0 {
        } else if difference < HALF {
          break;
        }
        h := p;
        i := i + 1;
      }
      PlaceExact(row, d, s.timers, i);
    }

    /** The search of `rt_timer_start`: each row is searched from where the one above ended. */
    method FindHeads(tick: nat, ghost s: State, ghost d: int) returns (heads: seq<int>)
      requires ConfigOk(c) && RowsOk(s) && Ordered(s.bottom, s.timers) && Distinct(s.bottom) && tick == Tick(d)
      requires TicksNear(nodes, s, d)
      ensures |heads| == c.levels
      ensures forall k :: 0 <= k < c.levels ==> heads[k] == HeadAt(Row(c, s, k), d, s.timers)
    {
      hide RowOk, Row, Inv, Distinct, Before;
      heads := [];
      var k: nat := 0;
      var h := HEAD;
      ghost var i: nat := 0;
      while k < c.levels
        invariant k <= c.levels && |heads| == k
        invariant forall j :: 0 <= j < k ==> heads[j] == HeadAt(Row(c, s, j), d, s.timers)
        invariant k < c.levels ==> i <= |Row(c, s, k)| && h == ([HEAD] + Row(c, s, k))[i]
        invariant k < c.levels ==> forall j :: 0 <= j < i ==> Deadline(s.timers, Row(c, s, k)[j]) <= d
      {
        RowTicks(c, s, k, d, nodes);
        assert RowOk(next[k], prev[k], Row(c, s, k), s.timers.Keys);
        RowRing(next[k], prev[k], Row(c, s, k), s.timers.Keys);
        h := FindRow(k, h, tick, i, Row(c, s, k), s, d);
        heads := heads + [h];
        if k + 1 < c.levels { i := StepDown(c, s, k, d); }
        k := k + 1;
      }
    }

    /** `rt_list_insert_after` on row k. */
    method InsertAfter(k: nat, h: int, t: Id, ghost row: seq<Id>, ghost p: nat, ghost ids: set<Id>)
      requires k < |next| == |prev| && RowOk(next[k], prev[k], row, ids) && p <= |row| && h == ([HEAD] + row)[p]
      requires t !in row
      modifies this`next, this`prev
      ensures |next| == |prev| == old(|next|) && RowOk(next[k], prev[k], row[..p] + ([t] + row[p..]), ids)
      ensures forall j :: 0 <= j < |next| && j != k ==> next[j] == old(next)[j] && prev[j] == old(prev)[j]
    {
      InsertNode(next[k], prev[k], row, p, t, ids);
      var n := next[k][h];
      prev := prev[k := prev[k][t := h]];
      prev := prev[k := prev[k][n := t]];
      next := next[k := next[k][t := n]];
      next := next[k := next[k][h := t]];
    }

    /** The tower: the lowest row, and upwards while the counter's digits are zero. */
    method InsertRows(heads: seq<int>, t: Id, ghost rows: seq<seq<Id>>, ghost places: seq<nat>, ghost ids: set<Id>)
      requires ConfigOk(c) && |next| == |prev| == c.levels == |rows| == |places| == |heads|
      requires forall k :: 0 <= k < c.levels ==> RowOk(next[k], prev[k], rows[k], ids) && t !in rows[k]
      requires forall k :: 0 <= k < c.levels ==> places[k] <= |rows[k]| && heads[k] == ([HEAD] + rows[k])[places[k]]
      modifies this`next, this`prev
      ensures |next| == |prev| == c.levels
      ensures forall k :: 0 <= k < c.levels ==> RowOk(next[k], prev[k],
        if Height(randomNr, c.base, c.levels) >= c.levels - k then rows[k][..places[k]] + ([t] + rows[k][places[k]..])
        else rows[k], ids)
    {
      hide RowOk, Ring;
      var tst: nat := randomNr;
      var k: nat := c.levels - 1;
      InsertAfter(k, heads[k], t, rows[k], places[k], ids);
      while k > 0
        invariant 0 <= k < c.levels && |next| == |prev| == c.levels
        invariant Height(randomNr, c.base, c.levels) == c.levels - 1 - k + Height(tst, c.base, k + 1)
        invariant forall j :: 0 <= j < k ==> RowOk(next[j], prev[j], rows[j], ids)
        invariant forall j :: k <= j < c.levels ==>
          RowOk(next[j], prev[j], rows[j][..places[j]] + ([t] + rows[j][places[j]..]), ids)
        decreases k
      {
        if tst % c.base != 0 {
          break;
        }
        InsertAfter(k - 1, heads[k - 1], t, rows[k - 1], places[k - 1], ids);
        tst := tst / c.base;
        k := k - 1;
      }
    }

    // ------------------------------------------------------------ the calls

    /** Find the places and link the tower, for a timer already off the rows; the insert
        counter is stepped. */
    method LinkTower(t: Id, tick: nat, ghost s: State, ghost now: int)
      requires ConfigOk(c) && Inv(c, s) && t in s.timers && randomNr == s.random
      requires RowsOk(Disarm(s, t)) && tick == Tick(now + s.timers[t].init)
      requires Ordered(Disarm(s, t).bottom, Disarm(s, t).timers) && Distinct(Disarm(s, t).bottom)
      requires TicksNear(nodes, Disarm(s, t), now + s.timers[t].init)
      modifies this`next, this`prev, this`randomNr
      ensures RowsOk(TimerSpec.Start(c, s, t, now)) && randomNr == TimerSpec.Start(c, s, t, now).random
    {
      hide RowOk, Ordered, Row, Inv, Distinct, TicksNear, Disarm, TimerSpec.Start;
      ghost var s1, s' := Disarm(s, t), TimerSpec.Start(c, s, t, now);
      StartMembers(c, s, t, now);
      var heads := FindHeads(tick, s1, now + s.timers[t].init);
      randomNr := (randomNr + 1) % WORD;
      ghost var rows := seq(c.levels, k requires 0 <= k < c.levels => Row(c, s1, k));
      ghost var places := seq(c.levels, k requires 0 <= k < c.levels =>
        PlaceOf(Row(c, s1, k), now + s.timers[t].init, s1.timers));
      forall k | 0 <= k < c.levels
        ensures RowOk(next[k], prev[k], rows[k], s.timers.Keys) && t !in rows[k]
        ensures places[k] <= |rows[k]| && heads[k] == ([HEAD] + rows[k])[places[k]]
        ensures RowAfterStart(c, s, t, now, k)
      {
        StartRow(c, s, t, now, k);
        assert RowOk(next[k], prev[k], Row(c, s1, k), s1.timers.Keys);
      }
      InsertRows(heads, t, rows, places, s.timers.Keys);
      forall k | 0 <= k < c.levels ensures RowOk(next[k], prev[k], Row(c, s', k), s'.timers.Keys) {
        assert RowAfterStart(c, s, t, now, k);
      }
    }

    /** `rt_timer_start` at tick `tick`, the low bits of the time now. */
    method Start(t: Id, tick: nat, ghost now: int)
      requires Valid() && t in nodes && tick == Tick(now) && FitsWindow(model, t, now)
      modifies this
      ensures Valid() && model == TimerSpec.Start(c, old(model), t, now)
    {
      hide NodesOk, RowOk, Ordered, Row, Inv, Distinct, TicksNear, FitsWindow, Disarm, TimerSpec.Start;
      ghost var s := model;
      SameTimers(nodes, randomNr, s);
      StartInv(c, s, t, now);
      Remove(t);
      StartNodes(c, s, t, now, tick, nodes, randomNr);
      StartMembers(c, s, t, now);
      nodes := nodes[t := nodes[t].(tick := (tick + nodes[t].init) % WORD)];
      LinkTower(t, nodes[t].tick, s, now);
      nodes := nodes[t := nodes[t].(active := true)];
      model := TimerSpec.Start(c, s, t, now);
    }

    /** `rt_timer_stop`: false, and no effect, when the timer is not armed. */
    method Stop(t: Id) returns (ok: bool)
      requires Valid() && t in nodes
      modifies this
      ensures ok == old(model.timers[t].active)
      ensures Valid() && model == T.Stop(old(model), t)
    {
      if !nodes[t].active {
        return false;
      }
      Remove(t);
      return true;
    }

    /** `rt_timer_check` at tick `tick`, with callbacks that leave the timers alone. */
    method Check(tick: nat, ghost now: int) returns (fired: seq<Id>)
      requires Valid() && tick == Tick(now) && T.InTime(model, now)
      modifies this
      ensures Valid() && (model, fired) == T.Check(c, old(model), now)
    {
      hide RowOk, Ordered, Row, Inv, Disarm, TimerSpec.Start, Fire, T.Due, T.Check, T.InTime, T.Served;
      fired := [];
      ghost var all := T.Check(c, model, now);
      while true
        invariant Valid() && T.InTime(model, now)
        invariant all.0 == T.Check(c, model, now).0 && all.1 == fired + T.Check(c, model, now).1
        decreases |T.Due(model, now)|
      {
        var front := Front();
        if front == HEAD {
          NothingDue(c, model, now);
          assert fired + [] == fired;
          return;
        }
        var t: Id := front;
        assert t in model.bottom;
        FrontDue(c, model, now);
        if Minus(tick, nodes[t].tick) >= HALF {
          NothingDue(c, model, now);
          assert fired + [] == fired;
          return;
        }
        FireFits(c, model, now);
        CheckTurn(c, model, now);
        fired := fired + [t];
        var periodic := nodes[t].periodic;
        Remove(t);
        if periodic {
          Start(t, tick, now);
        }
      }
    }

    /** The first node of the lowest row. */
    method Front() returns (t: int)
      requires Valid()
      ensures t == if model.bottom == [] then HEAD else model.bottom[0]
      ensures model.bottom != [] ==> model.bottom[0] in nodes
    {
      BottomRow(c, model);
      assert RowOk(next[c.levels - 1], prev[c.levels - 1], Row(c, model, c.levels - 1), model.timers.Keys);
      RingNext(next[c.levels - 1], prev[c.levels - 1], [HEAD] + model.bottom, 0);
      t := next[c.levels - 1][HEAD];
      if model.bottom != [] { assert model.bottom[0] in model.bottom; }
    }
  }

  // ---------------------------------------------------------- where it goes

  /** The ticks kept are those of the deadlines, and the deadlines are near d. */
  ghost predicate TicksNear(nodes: map<Id, Node>, s: State, d: int) {
    forall u :: u in s.bottom ==>
      u in nodes && nodes[u].tick == Tick(Deadline(s.timers, u)) && Near(Deadline(s.timers, u), d)
  }

  /** How many timers at the front are due no later than d. */
  function PlaceOf(l: seq<Id>, d: int, timers: map<Id, TimerSpec.Timer>): (p: nat)
    ensures p <= |l|
  {
    if l == [] || d < Deadline(timers, l[0]) then 0 else 1 + PlaceOf(l[1..], d, timers)
  }

  function HeadAt(row: seq<Id>, d: int, timers: map<Id, TimerSpec.Timer>): int {
    ([HEAD] + row)[PlaceOf(row, d, timers)]
  }

  lemma {:induction false} PlaceExact(l: seq<Id>, d: int, timers: map<Id, TimerSpec.Timer>, p: nat)
    requires p <= |l| && (p < |l| ==> d < Deadline(timers, l[p]))
    requires forall j :: 0 <= j < p ==> Deadline(timers, l[j]) <= d
    ensures PlaceOf(l, d, timers) == p
    decreases p
  {
    if p > 0 {
      assert Deadline(timers, l[0]) <= d;
      assert forall j :: 0 <= j < p - 1 ==> l[1..][j] == l[j + 1];
      PlaceExact(l[1..], d, timers, p - 1);
    }
  }

  lemma {:induction false} PlaceBounds(l: seq<Id>, d: int, timers: map<Id, TimerSpec.Timer>)
    ensures var p := PlaceOf(l, d, timers);
      (p < |l| ==> d < Deadline(timers, l[p])) && (p > 0 ==> Deadline(timers, l[p - 1]) <= d)
  {
    if l != [] && d >= Deadline(timers, l[0]) { PlaceBounds(l[1..], d, timers); }
  }

  lemma {:induction false} InsertAtPlace(l: seq<Id>, t: Id, timers: map<Id, TimerSpec.Timer>)
    ensures var p := PlaceOf(l, Deadline(timers, t), timers);
      Insert(l, t, timers) == l[..p] + ([t] + l[p..])
  {
    if l != [] && Deadline(timers, t) >= Deadline(timers, l[0]) {
      InsertAtPlace(l[1..], t, timers);
      var p := PlaceOf(l[1..], Deadline(timers, t), timers);
      InsertBehind(l, t, p);
    }
  }

  lemma InsertBehind(l: seq<Id>, t: Id, p: nat)
    requires p < |l|
    ensures l[..p + 1] + ([t] + l[p + 1..]) == [l[0]] + (l[1..][..p] + ([t] + l[1..][p..]))
  {
  }

  lemma RowTicks(c: Config, s: State, k: nat, d: int, nodes: map<Id, Node>)
    requires k < c.levels && TicksNear(nodes, s, d)
    ensures forall u :: u in Row(c, s, k) ==>
      u in nodes && nodes[u].tick == Tick(Deadline(s.timers, u)) && Near(Deadline(s.timers, u), d)
  {
    T.ReachingMembers(s.bottom, s.timers, c.levels - k);
  }

  lemma RowRing(next: Links, prev: Links, row: seq<Id>, ids: set<Id>)
    requires RowOk(next, prev, row, ids)
    ensures Ring(next, prev, [HEAD] + row)
  {
  }

  lemma EarlierToo(l: seq<Id>, timers: map<Id, TimerSpec.Timer>, j: nat, d: int)
    requires Ordered(l, timers) && j < |l| && Deadline(timers, l[j]) <= d
    ensures forall m :: 0 <= m <= j ==> Deadline(timers, l[m]) <= d
  {
    forall m | 0 <= m <= j ensures Deadline(timers, l[m]) <= d {
      assert l[m] in l && l[j] in l && (m < j ==> Before(timers[l[m]], timers[l[j]]));
    }
  }

  /** The node a row's search ended on is on the row below, and nothing before it there is
      due later. */
  lemma StepDown(c: Config, s: State, k: nat, d: int) returns (i: nat)
    requires k + 1 < c.levels && Ordered(s.bottom, s.timers) && Distinct(s.bottom)
    ensures var row := Row(c, s, k + 1);
      && i <= |row| && HeadAt(Row(c, s, k), d, s.timers) == ([HEAD] + row)[i]
      && forall j :: 0 <= j < i ==> Deadline(s.timers, row[j]) <= d
  {
    hide Reaching, Before, Distinct, PlaceOf;
    var up, down := Row(c, s, k), Row(c, s, k + 1);
    var p := PlaceOf(up, d, s.timers);
    T.ReachingMembers(s.bottom, s.timers, c.levels - k);
    T.ReachingMembers(s.bottom, s.timers, c.levels - k - 1);
    T.ReachingOrdered(s.bottom, s.timers, c.levels - k - 1);
    PlaceBounds(up, d, s.timers);
    if p == 0 {
      i := 0;
    } else {
      var h := up[p - 1];
      assert h in up && h in down;
      var j :| 0 <= j < |down| && down[j] == h;
      i := j + 1;
      EarlierToo(down, s.timers, j, d);
    }
  }

  /** The four stores of an insertion. */
  lemma InsertNode(next: Links, prev: Links, row: seq<Id>, p: nat, t: Id, ids: set<Id>)
    requires RowOk(next, prev, row, ids) && p <= |row| && t !in row
    ensures var h := ([HEAD] + row)[p];
      && h in next
      && RowOk(next[t := next[h]][h := t], prev[t := h][next[h] := t], row[..p] + ([t] + row[p..]), ids)
  {
    var ring: seq<int> := [HEAD] + row;
    RingNext(next, prev, ring, p);
    RingInsert(next, prev, ring, p, t);
    assert Inserted(ring, p, t) == [HEAD] + (row[..p] + ([t] + row[p..]));
    InsertMisses(next, prev, row, p, t, ids);
  }

  lemma InsertMisses(next: Links, prev: Links, row: seq<Id>, p: nat, t: Id, ids: set<Id>)
    requires RowOk(next, prev, row, ids) && p <= |row| && t !in row
    ensures var h := ([HEAD] + row)[p]; var l := row[..p] + ([t] + row[p..]);
      && h in next
      && (forall u :: u in ids && u !in l ==>
            && u in next[t := next[h]][h := t] && u in prev[t := h][next[h] := t]
            && next[t := next[h]][h := t][u] == u && prev[t := h][next[h] := t][u] == u)
  {
    var ring: seq<int> := [HEAD] + row;
    var l := row[..p] + ([t] + row[p..]);
    RingNext(next, prev, ring, p);
    hide Ring;
    assert row == row[..p] + row[p..];
    assert forall u :: u in l <==> u in row || u == t;
    assert ring[p] in ring && next[ring[p]] in ring;
  }

  // ------------------------------------------------------- starting and firing

  lemma InitState(c: Config, s: State, nodes: map<Id, Node>, randomNr: nat, t: Id, time: nat, periodic: bool)
    requires ConfigOk(c) && Inv(c, s) && NodesOk(nodes, randomNr, s) && t !in nodes && time < HALF
    ensures var s' := s.(timers := s.timers[t := TimerSpec.Timer(time, periodic, false, 0, 1, 0)]);
      && t !in s.timers && Inv(c, s') && NodesOk(nodes[t := Node(time, periodic, false, 0)], randomNr, s')
  {
    hide Distinct, Near, Tick;
  }

  lemma InitRow(c: Config, s: State, t: Id, x: TimerSpec.Timer, k: nat, next: Links, prev: Links)
    requires ConfigOk(c) && Inv(c, s) && t !in s.timers && k < c.levels
    requires RowOk(next, prev, Row(c, s, k), s.timers.Keys)
    ensures var s' := s.(timers := s.timers[t := x]);
      RowOk(next[t := t], prev[t := t], Row(c, s', k), s'.timers.Keys)
  {
    hide Ring, Reaching;
    var s' := s.(timers := s.timers[t := x]);
    ReachingSame(s.bottom, s.timers, s'.timers, c.levels - k);
    T.ReachingMembers(s.bottom, s.timers, c.levels - k);
    RingFrame(next, prev, next[t := t], prev[t := t], [HEAD] + Row(c, s, k));
  }

  lemma TickSum(now: int, n: nat)
    ensures (Tick(now) + n) % WORD == Tick(now + n)
  {
  }

  lemma SameTimers(nodes: map<Id, Node>, randomNr: nat, s: State)
    requires NodesOk(nodes, randomNr, s)
    ensures nodes.Keys == s.timers.Keys
  {
  }

  /** What `rt_timer_start` stores in the timer, before and after the linking. */
  lemma StartNodes(c: Config, s: State, t: Id, now: int, tick: nat, nodes: map<Id, Node>, randomNr: nat)
    requires ConfigOk(c) && Inv(c, s) && t in s.timers && FitsWindow(s, t, now) && tick == Tick(now)
    requires NodesOk(nodes, randomNr, Disarm(s, t))
    ensures var d := now + s.timers[t].init; var s1, s' := Disarm(s, t), TimerSpec.Start(c, s, t, now);
      && t in nodes && (tick + nodes[t].init) % WORD == Tick(d) && randomNr == s.random
      && Ordered(s1.bottom, s1.timers) && Distinct(s1.bottom)
      && var nodes1 := nodes[t := nodes[t].(tick := (tick + nodes[t].init) % WORD)];
      && TicksNear(nodes1, s1, d)
      && NodesOk(nodes1[t := nodes1[t].(active := true)], s'.random, s')
  {
    hide Inv, NodesOk, TicksNear, Tick, Ordered, FitsWindow;
    DisarmOrdered(c, s, t);
    StartTicksNear(c, s, t, now, tick, nodes, randomNr);
    StartNodesOk(c, s, t, now, tick, nodes, randomNr);
  }

  lemma StartTicksNear(c: Config, s: State, t: Id, now: int, tick: nat, nodes: map<Id, Node>, randomNr: nat)
    requires Inv(c, s) && t in s.timers && FitsWindow(s, t, now) && tick == Tick(now)
    requires NodesOk(nodes, randomNr, Disarm(s, t))
    ensures var d := now + s.timers[t].init;
      && t in nodes && (tick + nodes[t].init) % WORD == Tick(d) && randomNr == s.random
      && TicksNear(nodes[t := nodes[t].(tick := (tick + nodes[t].init) % WORD)], Disarm(s, t), d)
  {
    hide Tick, Without, InitOk, Armed, Inv;
    TickSum(now, s.timers[t].init);
    DisarmMembers(c, s, t);
    hide Inv;
    assert forall u :: u in Disarm(s, t).bottom ==> Near(now + s.timers[t].init, s.timers[u].deadline);
  }

  /** A timer armed again, and nothing else changed. */
  lemma NodesStarted(s1: State, s': State, t: Id, tick: nat, nodes: map<Id, Node>, randomNr: nat)
    requires NodesOk(nodes, randomNr, s1) && t in s1.timers && s'.timers.Keys == s1.timers.Keys
    requires s'.timers[t].active && tick == Tick(s'.timers[t].deadline)
    requires s'.timers[t].init == s1.timers[t].init && s'.timers[t].periodic == s1.timers[t].periodic
    requires forall u :: u in s1.timers && u != t ==> s'.timers[u] == s1.timers[u]
    requires forall u :: u in s'.bottom ==> u == t || u in s1.bottom
    ensures t in nodes
    ensures var nodes1 := nodes[t := nodes[t].(tick := tick)];
      NodesOk(nodes1[t := nodes1[t].(active := true)], s'.random, s')
  {
    hide Tick;
  }

  lemma StartNodesOk(c: Config, s: State, t: Id, now: int, tick: nat, nodes: map<Id, Node>, randomNr: nat)
    requires ConfigOk(c) && Inv(c, s) && t in s.timers && tick == Tick(now) && NodesOk(nodes, randomNr, Disarm(s, t))
    ensures var s' := TimerSpec.Start(c, s, t, now);
      && t in nodes
      && var nodes1 := nodes[t := nodes[t].(tick := (tick + nodes[t].init) % WORD)];
      NodesOk(nodes1[t := nodes1[t].(active := true)], s'.random, s')
  {
    hide Inv, NodesOk, Tick, Without, Start;
    TickSum(now, s.timers[t].init);
    StartMembers(c, s, t, now);
    InitKnown(nodes, randomNr, Disarm(s, t), t);
    NodesStarted(Disarm(s, t), TimerSpec.Start(c, s, t, now), t, (tick + s.timers[t].init) % WORD, nodes, randomNr);
  }

  lemma InitKnown(nodes: map<Id, Node>, randomNr: nat, s: State, t: Id)
    requires NodesOk(nodes, randomNr, s) && t in s.timers
    ensures t in nodes && nodes[t].init == s.timers[t].init
  {
  }

  lemma DisarmOrdered(c: Config, s: State, t: Id)
    requires Inv(c, s) && t in s.timers
    ensures var s1 := Disarm(s, t);
      && Ordered(s1.bottom, s1.timers) && Distinct(s1.bottom) && forall u :: u in s1.bottom ==> u in s.bottom && u != t
  {
    assert Ordered(s.bottom, s.timers);
    WithoutOrdered(s.bottom, t, s.timers);
    OrderedSame(Without(s.bottom, t), s.timers, Disarm(s, t).timers);
  }

  lemma {:induction false} PlaceSame(l: seq<Id>, d: int, timers: map<Id, TimerSpec.Timer>,
                                     timers': map<Id, TimerSpec.Timer>)
    requires forall t :: t in l ==> Deadline(timers', t) == Deadline(timers, t)
    ensures PlaceOf(l, d, timers') == PlaceOf(l, d, timers)
  {
    if l != [] {
      assert forall t :: t in l[1..] ==> t in l;
      PlaceSame(l[1..], d, timers, timers');
    }
  }

  /** Every row after a start: the new timer in its place where its tower reaches. */
  ghost predicate RowAfterStart(c: Config, s: State, t: Id, now: int, k: nat)
    requires c.levels >= 1 && c.base >= 2 && k < c.levels && t in s.timers
  {
    var s1, s' := Disarm(s, t), TimerSpec.Start(c, s, t, now);
    var row := Row(c, s1, k);
    var p := PlaceOf(row, now + s.timers[t].init, s1.timers);
    && t !in row
    && Row(c, s', k) == if Height(s'.random, c.base, c.levels) >= c.levels - k then row[..p] + ([t] + row[p..]) else row
  }

  lemma StartRow(c: Config, s: State, t: Id, now: int, k: nat)
    requires ConfigOk(c) && Inv(c, s) && t in s.timers && k < c.levels
    ensures RowAfterStart(c, s, t, now, k)
  {
    hide Without, Reaching, Inv, Insert, Window;
    var s1, s' := Disarm(s, t), TimerSpec.Start(c, s, t, now);
    DisarmOrdered(c, s, t);
    hide Inv, Before;
    OrderedSame(s1.bottom, s1.timers, s'.timers);
    RowInsert(s1.bottom, t, s1.timers, s'.timers, now + s.timers[t].init, c.levels - k);
  }

  lemma RowInsert(l: seq<Id>, t: Id, timers: map<Id, TimerSpec.Timer>, timers': map<Id, TimerSpec.Timer>, d: int,
                  h: nat)
    requires Ordered(l, timers') && Distinct(l) && t !in l && t in timers' && timers'[t].deadline == d
    requires forall u :: u in l ==> u in timers && timers'[u] == timers[u]
    ensures var row := Reaching(l, timers, h); var p := PlaceOf(row, d, timers);
      && t !in row
      && Reaching(Insert(l, t, timers'), timers', h)
         == if timers'[t].height >= h then row[..p] + ([t] + row[p..]) else row
  {
    ReachingInsert(l, t, timers', h);
    ReachingSame(l, timers, timers', h);
    var row := Reaching(l, timers, h);
    T.ReachingMembers(l, timers, h);
    InsertAtPlace(row, t, timers');
    PlaceSame(row, d, timers, timers');
  }

  lemma StartMembers(c: Config, s: State, t: Id, now: int)
    requires ConfigOk(c) && Inv(c, s) && t in s.timers
    ensures Disarm(s, t).timers.Keys == s.timers.Keys
    ensures var s' := TimerSpec.Start(c, s, t, now);
      && s'.timers.Keys == s.timers.Keys && s'.random == (s.random + 1) % WORD
      && s'.timers[t].active && s'.timers[t].deadline == now + s.timers[t].init
      && s'.timers[t].init == s.timers[t].init && s'.timers[t].periodic == s.timers[t].periodic
      && (forall u :: u in s.timers && u != t ==> s'.timers[u] == s.timers[u])
      && (forall u :: u in s'.bottom ==> u == t || u in Disarm(s, t).bottom)
  {
    assert Ordered(s.bottom, s.timers);
    WithoutOrdered(s.bottom, t, s.timers);
    InsertMembers(Without(s.bottom, t), t, TimerSpec.Start(c, s, t, now).timers);
  }

  lemma BottomRow(c: Config, s: State)
    requires ConfigOk(c) && Inv(c, s)
    ensures Row(c, s, c.levels - 1) == s.bottom
  {
    T.ReachingAll(s.bottom, s.timers);
  }

  /** The front timer decides whether anything is due, and its tick tells. */
  lemma FrontDue(c: Config, s: State, now: int)
    requires ConfigOk(c) && Inv(c, s) && T.InTime(s, now) && s.bottom != []
    ensures s.bottom[0] in s.timers
    ensures Minus(Tick(now), Tick(s.timers[s.bottom[0]].deadline)) < HALF <==> T.Due(s, now) != []
  {
    assert s.bottom[0] in s.bottom;
    WrappedOrder(now, s.timers[s.bottom[0]].deadline);
  }

  lemma NothingDue(c: Config, s: State, now: int)
    requires ConfigOk(c) && Inv(c, s) && T.InTime(s, now) && (s.bottom == [] || T.Due(s, now) == [])
    ensures T.Check(c, s, now) == (s, [])
  {
  }

  lemma CheckTurn(c: Config, s: State, now: int)
    requires ConfigOk(c) && Inv(c, s) && T.InTime(s, now) && T.Due(s, now) != []
    ensures s.bottom != [] && s.bottom[0] in s.timers
    ensures var s' := Fire(c, s, now);
      && Inv(c, s') && T.InTime(s', now) && |T.Due(s', now)| < |T.Due(s, now)|
      && T.Check(c, s, now).0 == T.Check(c, s', now).0
      && T.Check(c, s, now).1 == [s.bottom[0]] + T.Check(c, s', now).1
  {
    T.FireEffect(c, s, now);
  }

  /** Re-arming fits the window, and starting again after the removal is the whole turn. */
  lemma FireFits(c: Config, s: State, now: int)
    requires ConfigOk(c) && Inv(c, s) && T.InTime(s, now) && s.bottom != [] && s.bottom[0] in s.timers
    ensures var t := s.bottom[0]; var s1 := Disarm(s, t);
      && t in s1.timers
      && Fire(c, s, now) == (if s.timers[t].periodic then TimerSpec.Start(c, s1, t, now) else s1)
      && (s.timers[t].periodic ==> FitsWindow(s1, t, now))
  {
    hide Without, Height;
    var t := s.bottom[0];
    var s1 := Disarm(s, t);
    DisarmMembers(c, s, t);
    WithoutAbsent(s1.bottom, t);
    if s.timers[t].periodic {
      var a, b := TimerSpec.Start(c, s, t, now), TimerSpec.Start(c, s1, t, now);
      assert a.timers == b.timers;
    }
  }

  /** `rt_list_remove` on a row: a node that is not there is linked to itself, and stays so. */
  lemma RemoveNode(next: Links, prev: Links, row: seq<Id>, t: Id, ids: set<Id>)
    requires RowOk(next, prev, row, ids) && t in ids && Distinct(row)
    ensures t in next && t in prev
    ensures var a, b := prev[t], next[t];
      RowOk(next[a := b][t := t], prev[b := a][t := t], Without(row, t), ids)
  {
    if t in row { RemoveLinked(next, prev, row, t, ids); } else { RemoveUnlinked(next, prev, row, t, ids); }
  }

  lemma RemoveLinked(next: Links, prev: Links, row: seq<Id>, t: Id, ids: set<Id>)
    requires RowOk(next, prev, row, ids) && t in ids && Distinct(row) && t in row
    ensures t in next && t in prev
    ensures var a, b := prev[t], next[t];
      RowOk(next[a := b][t := t], prev[b := a][t := t], Without(row, t), ids)
  {
    var j :| 0 <= j < |row| && row[j] == t;
    HeadRemoved(HEAD, row, j);
    RingUnlink(next, prev, [HEAD] + row, j + 1);
    hide Ring, Removed, Without, Distinct;
    WithoutMembers(row, t);
    SelfLinked(next, prev, row, t, ids);
  }

  /** The two stores miss every node that is not on the row. */
  lemma SelfLinked(next: Links, prev: Links, row: seq<Id>, t: Id, ids: set<Id>)
    requires forall u :: u in ids && u !in row ==> u in next && u in prev && next[u] == u && prev[u] == u
    requires t in next && t in prev && prev[t] in [HEAD] + row && next[t] in [HEAD] + row
    ensures var a, b := prev[t], next[t];
      forall u :: u in ids && (u !in row || u == t) ==>
        u in next[a := b][t := t] && u in prev[b := a][t := t] && next[a := b][t := t][u] == u
          && prev[b := a][t := t][u] == u
  {
  }

  lemma RemoveUnlinked(next: Links, prev: Links, row: seq<Id>, t: Id, ids: set<Id>)
    requires RowOk(next, prev, row, ids) && t in ids && t !in row
    ensures t in next && t in prev
    ensures var a, b := prev[t], next[t];
      RowOk(next[a := b][t := t], prev[b := a][t := t], Without(row, t), ids)
  {
    hide Without;
    WithoutAbsent(row, t);
    RingFrame(next, prev, next[t := t], prev[t := t], [HEAD] + row);
  }

  lemma RowDistinct(c: Config, s: State, k: nat)
    requires Inv(c, s) && k < c.levels
    ensures Distinct(Row(c, s, k)) && Ordered(Row(c, s, k), s.timers)
    ensures forall t :: t in Row(c, s, k) <==> t in s.bottom && s.timers[t].height >= c.levels - k
  {
    assert Ordered(s.bottom, s.timers);
    T.ReachingOrdered(s.bottom, s.timers, c.levels - k);
    T.ReachingMembers(s.bottom, s.timers, c.levels - k);
  }

  // ------------------------------------------------- rows and the operations

  lemma {:induction false} ReachingWithout(l: seq<Id>, t: Id, timers: map<Id, TimerSpec.Timer>, h: nat)
    requires Distinct(l)
    ensures Reaching(Without(l, t), timers, h) == Without(Reaching(l, timers, h), t)
  {
    if l != [] {
      TailMembers(l);
      ReachingWithout(l[1..], t, timers, h);
      if l[0] == t {
        T.ReachingMembers(l[1..], timers, h);
        WithoutAbsent(Reaching(l[1..], timers, h), t);
      }
    }
  }

  lemma {:induction false} ReachingSame(l: seq<Id>, timers: map<Id, TimerSpec.Timer>,
                                        timers': map<Id, TimerSpec.Timer>, h: nat)
    requires forall t :: t in l ==>
      (t in timers' <==> t in timers) && (t in timers ==> timers'[t].height == timers[t].height)
    ensures Reaching(l, timers', h) == Reaching(l, timers, h)
  {
    if l != [] {
      assert forall t :: t in l[1..] ==> t in l;
      ReachingSame(l[1..], timers, timers', h);
    }
  }

  /** Inserting into the lowest row inserts into exactly the rows the tower reaches. */
  lemma {:induction false} ReachingInsert(l: seq<Id>, t: Id, timers: map<Id, TimerSpec.Timer>, h: nat)
    requires Ordered(l, timers) && Distinct(l) && t in timers && t !in l
    ensures Reaching(Insert(l, t, timers), timers, h) ==
      if timers[t].height >= h then Insert(Reaching(l, timers, h), t, timers) else Reaching(l, timers, h)
  {
    T.ReachingMembers(l, timers, h);
    if l == [] {
      assert Insert(l, t, timers)[1..] == [];
    } else {
      OrderedTail(l, timers);
      TailMembers(l);
      if Deadline(timers, t) < Deadline(timers, l[0]) {
        assert Insert(l, t, timers)[1..] == l;
        var r := Reaching(l, timers, h);
        assert r != [] ==> r[0] in l && Deadline(timers, t) < Deadline(timers, r[0]);
      } else {
        assert Insert(l, t, timers)[1..] == Insert(l[1..], t, timers);
        ReachingInsert(l[1..], t, timers, h);
      }
    }
  }

  lemma RowDisarm(c: Config, s: State, t: Id, k: nat)
    requires Distinct(s.bottom) && t in s.timers && k < c.levels
    ensures Row(c, Disarm(s, t), k) == Without(Row(c, s, k), t)
  {
    hide Without, Reaching;
    var s' := Disarm(s, t);
    ReachingSame(s'.bottom, s.timers, s'.timers, c.levels - k);
    ReachingWithout(s.bottom, t, s.timers, c.levels - k);
  }

  lemma DisarmMembers(c: Config, s: State, t: Id)
    requires Inv(c, s) && t in s.timers
    ensures Distinct(s.bottom)
    ensures forall u :: u in Disarm(s, t).bottom ==> u in s.bottom && u != t && u in s.timers
  {
    assert Ordered(s.bottom, s.timers);
    WithoutOrdered(s.bottom, t, s.timers);
  }
}
