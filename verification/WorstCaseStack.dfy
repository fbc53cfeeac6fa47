/** The worst-case stack analysis over a call graph (rt-thread/tools/WCS.py): calls by name
    are resolved to functions, and a depth-first search with memory finds for each function
    how much stack it may take, callees included. */
module WorstCaseStack {
  import opened Wrappers

  /** A function is known by its name, or, when local, by its name and translation unit. */
  datatype Id = Global(name: string) | Local(name: string, tu: string)

  datatype Fxn = Fxn(tu: string, calls: set<string>, hasPtrCall: bool, localStack: nat, manual: bool)

  type Graph = map<Id, Fxn>

  /** Functions whose stack size is given by hand call nothing. */
  ghost predicate GraphOk(g: Graph) {
    forall f :: f in g && g[f].manual ==> g[f].calls == {} && !g[f].hasPtrCall
  }

  /** `find_fxn`: a global of that name, or else a local one of the same unit. */
  function Find(g: Graph, tu: string, name: string): (r: Option<Id>)
    ensures r.Some? ==> r.value in g && r.value.name == name
    ensures r.None? <==> Global(name) !in g && Local(name, tu) !in g
    ensures Global(name) in g ==> r == Some(Global(name))
  {
    if Global(name) in g then Some(Global(name))
    else if Local(name, tu) in g then Some(Local(name, tu))
    else None
  }

  ghost predicate Edge(g: Graph, f: Id, h: Id) {
    f in g && exists call :: call in g[f].calls && Find(g, g[f].tu, call) == Some(h)
  }

  /** The calls of f that lead nowhere known. */
  function Own(g: Graph, f: Id): set<string>
    requires f in g
  {
    set call | call in g[f].calls && Find(g, g[f].tu, call).None?
  }

  // ------------------------------------------------------------------- paths

  ghost predicate IsPath(g: Graph, p: seq<Id>) {
    p != [] && p[0] in g && forall i :: 0 <= i < |p| - 1 ==> Edge(g, p[i], p[i + 1])
  }

  ghost predicate PathFrom(g: Graph, f: Id, p: seq<Id>) { IsPath(g, p) && p[0] == f }

  ghost predicate Connects(g: Graph, f: Id, h: Id, p: seq<Id>) { PathFrom(g, f, p) && p[|p| - 1] == h }

  ghost predicate Reaches(g: Graph, f: Id, h: Id) { exists p :: Connects(g, f, h, p) }

  ghost predicate OnCycle(g: Graph, h: Id) { exists p :: |p| >= 2 && Connects(g, h, h, p) }

  /** f may come to a call through a pointer, or to a function that may call itself. */
  ghost predicate MayRunAway(g: Graph, f: Id) {
    exists h :: Reaches(g, f, h) && h in g && (g[h].hasPtrCall || OnCycle(g, h))
  }

  function PathSum(g: Graph, p: seq<Id>): nat {
    if p == [] then 0 else (if p[0] in g then g[p[0]].localStack else 0) + PathSum(g, p[1..])
  }

  /** n is the largest sum of local stacks along any path of calls from f. */
  ghost predicate IsWorst(g: Graph, f: Id, n: nat) {
    && (exists p :: PathFrom(g, f, p) && PathSum(g, p) == n)
    && (forall p :: PathFrom(g, f, p) ==> PathSum(g, p) <= n)
  }

  /** A call by this name that leads nowhere can be come to from f. */
  ghost predicate Missing(g: Graph, f: Id, call: string) {
    exists h :: Reaches(g, f, h) && h in g && call in Own(g, h)
  }

  lemma PathIn(g: Graph, p: seq<Id>, k: nat)
    requires IsPath(g, p) && k < |p|
    ensures p[k] in g
  {
    assert k > 0 ==> Edge(g, p[k - 1], p[k - 1 + 1]);
  }

  lemma PathCons(g: Graph, f: Id, h: Id, p: seq<Id>)
    requires Edge(g, f, h) && PathFrom(g, h, p)
    ensures PathFrom(g, f, [f] + p) && PathSum(g, [f] + p) == g[f].localStack + PathSum(g, p)
  {
    var q := [f] + p;
    forall i | 0 <= i < |q| - 1 ensures Edge(g, q[i], q[i + 1]) {
      assert i > 0 ==> Edge(g, p[i - 1], p[i - 1 + 1]);
    }
    assert q[1..] == p;
  }

  lemma PathTail(g: Graph, p: seq<Id>)
    requires IsPath(g, p) && |p| >= 2
    ensures Edge(g, p[0], p[1]) && PathFrom(g, p[1], p[1..])
    ensures PathSum(g, p) == g[p[0]].localStack + PathSum(g, p[1..])
  {
    assert Edge(g, p[0], p[0 + 1]);
    forall i | 0 <= i < |p[1..]| - 1 ensures Edge(g, p[1..][i], p[1..][i + 1]) {
      assert Edge(g, p[i + 1], p[i + 1 + 1]);
    }
  }

  lemma ReachesSelf(g: Graph, f: Id)
    requires f in g
    ensures Reaches(g, f, f)
  {
    assert Connects(g, f, f, [f]);
  }

  lemma ReachesCons(g: Graph, f: Id, h: Id, x: Id)
    requires Edge(g, f, h) && Reaches(g, h, x)
    ensures Reaches(g, f, x)
  {
    var p :| Connects(g, h, x, p);
    PathCons(g, f, h, p);
    assert Connects(g, f, x, [f] + p);
  }

  lemma RunAwayCons(g: Graph, f: Id, h: Id)
    requires Edge(g, f, h) && MayRunAway(g, h)
    ensures MayRunAway(g, f)
  {
    var x :| Reaches(g, h, x) && x in g && (g[x].hasPtrCall || OnCycle(g, x));
    ReachesCons(g, f, h, x);
  }

  lemma MissingCons(g: Graph, f: Id, h: Id, call: string)
    requires Edge(g, f, h) && Missing(g, h, call)
    ensures Missing(g, f, call)
  {
    var x :| Reaches(g, h, x) && x in g && call in Own(g, x);
    ReachesCons(g, f, h, x);
  }

  // ------------------------------------------------------- finished functions

  datatype Wcs = Unbounded | Bound(n: nat)

  type Bounds = map<Id, Wcs>

  /** Names of calls that lead nowhere, by function. */
  type Names = map<Id, set<string>>

  /** The functions found to be bounded, in the order they were finished: each calls earlier
      ones only. */
  ghost predicate Layered(g: Graph, done: seq<Id>) {
    && (forall i, j :: 0 <= i < j < |done| ==> done[i] != done[j])
    && (forall i :: 0 <= i < |done| ==> done[i] in g && !g[done[i]].hasPtrCall)
    && (forall i, h :: 0 <= i < |done| && Edge(g, done[i], h) ==> h in done[..i])
  }

  /** A finished function's bound is its own stack and the largest of its callees'. */
  ghost predicate BoundOk(g: Graph, wcs: Bounds, f: Id) {
    && f in g && f in wcs && wcs[f].Bound?
    && (forall h :: Edge(g, f, h) ==> h in wcs && wcs[h].Bound? && g[f].localStack + wcs[h].n <= wcs[f].n)
    && (wcs[f].n == g[f].localStack
        || exists h :: Edge(g, f, h) && h in wcs && wcs[h].Bound? && wcs[f].n == g[f].localStack + wcs[h].n)
  }

  /** And its unresolved calls are its own and its callees'. */
  ghost predicate MissingOk(g: Graph, unresolved: Names, f: Id) {
    && f in g && f in unresolved
    && forall call :: call in unresolved[f] <==>
         call in Own(g, f) || exists h :: Edge(g, f, h) && h in unresolved && call in unresolved[h]
  }

  ghost predicate Finished(g: Graph, wcs: Bounds, unresolved: Names, done: seq<Id>) {
    && Layered(g, done)
    && (forall f :: f in done <==> f in wcs && wcs[f].Bound?)
    && (forall f :: f in done ==> BoundOk(g, wcs, f) && MissingOk(g, unresolved, f))
    && (forall f :: f in wcs && wcs[f].Unbounded? ==> MayRunAway(g, f))
    && (forall f, call :: f in unresolved && call in unresolved[f] ==> Missing(g, f, call))
  }

  /** Paths from a finished function go down the layers. */
  lemma {:induction false} PathDown(g: Graph, done: seq<Id>, i: nat, p: seq<Id>)
    requires Layered(g, done) && i < |done| && PathFrom(g, done[i], p)
    ensures forall k :: 0 < k < |p| ==> p[k] in done[..i]
    decreases |p|
  {
    if |p| >= 2 {
      PathTail(g, p);
      assert p[1] in done[..i];
      var j :| 0 <= j < i && done[j] == p[1];
      PathDown(g, done, j, p[1..]);
      forall k | 0 < k < |p| ensures p[k] in done[..i] {
        if k > 1 {
          assert p[k] == p[1..][k - 1] && p[1..][k - 1] in done[..j];
          assert done[..j] == done[..i][..j];
        }
      }
    }
  }

  lemma NoReturn(g: Graph, done: seq<Id>, i: nat, p: seq<Id>)
    requires Layered(g, done) && i < |done| && PathFrom(g, done[i], p) && |p| >= 2
    ensures p[|p| - 1] != done[i]
  {
    PathDown(g, done, i, p);
    assert p[|p| - 1] in done[..i];
  }

  /** So a finished function never runs away. */
  lemma FinishedStays(g: Graph, done: seq<Id>, f: Id)
    requires Layered(g, done) && f in done
    ensures !MayRunAway(g, f)
  {
    var i :| 0 <= i < |done| && done[i] == f;
    forall h | Reaches(g, f, h) && h in g ensures !g[h].hasPtrCall && !OnCycle(g, h) {
      var p :| Connects(g, f, h, p);
      PathDown(g, done, i, p);
      assert h in done by {
        if |p| >= 2 { assert h in done[..i]; }
      }
      var j :| 0 <= j < |done| && done[j] == h;
      forall q | |q| >= 2 ensures !Connects(g, h, h, q) {
        if PathFrom(g, h, q) { NoReturn(g, done, j, q); }
      }
    }
  }

  lemma {:induction false} PathWithin(g: Graph, wcs: Bounds, unresolved: Names, done: seq<Id>, p: seq<Id>)
    requires Finished(g, wcs, unresolved, done) && IsPath(g, p) && p[0] in done
    ensures PathSum(g, p) <= wcs[p[0]].n
    decreases |p|
  {
    if |p| >= 2 {
      PathTail(g, p);
      assert BoundOk(g, wcs, p[0]);
      PathWithin(g, wcs, unresolved, done, p[1..]);
    } else {
      assert BoundOk(g, wcs, p[0]);
      assert p[1..] == [];
    }
  }

  lemma {:induction false} BoundAttained(g: Graph, wcs: Bounds, unresolved: Names, done: seq<Id>, i: nat)
    returns (p: seq<Id>)
    requires Finished(g, wcs, unresolved, done) && i < |done|
    ensures PathFrom(g, done[i], p) && PathSum(g, p) == wcs[done[i]].n
    decreases i
  {
    var f := done[i];
    assert BoundOk(g, wcs, f);
    if wcs[f].n == g[f].localStack {
      p := [f];
      assert p[1..] == [];
    } else {
      var h :| Edge(g, f, h) && wcs[f].n == g[f].localStack + wcs[h].n;
      assert h in done[..i];
      var j :| 0 <= j < i && done[j] == h;
      var q := BoundAttained(g, wcs, unresolved, done, j);
      PathCons(g, f, h, q);
      p := [f] + q;
    }
  }

  lemma {:induction false} MissingFound(g: Graph, wcs: Bounds, unresolved: Names, done: seq<Id>,
                                        p: seq<Id>, call: string)
    requires Finished(g, wcs, unresolved, done) && IsPath(g, p) && p[0] in done
    requires p[|p| - 1] in g && call in Own(g, p[|p| - 1])
    ensures p[0] in unresolved && call in unresolved[p[0]]
    decreases |p|
  {
    hide Own, Edge, Layered, Missing, MayRunAway;
    assert MissingOk(g, unresolved, p[0]);
    if |p| >= 2 {
      PathTail(g, p);
      assert BoundOk(g, wcs, p[0]);
      MissingFound(g, wcs, unresolved, done, p[1..], call);
    }
  }

  /** What the search leaves for one function. */
  ghost predicate Exact(g: Graph, f: Id, w: Wcs, missing: set<string>) {
    && (w.Unbounded? <==> MayRunAway(g, f))
    && (w.Bound? ==> IsWorst(g, f, w.n))
    && (w.Bound? ==> forall call :: call in missing <==> Missing(g, f, call))
  }

  /** Bounds are exact: a function is unbounded exactly when it may run away; otherwise its
      bound is the largest sum over all paths of calls from it, and its unresolved calls are
      those that can be come to from it. */
  lemma FinishedExact(g: Graph, wcs: Bounds, unresolved: Names, done: seq<Id>, f: Id)
    requires Finished(g, wcs, unresolved, done) && f in wcs && f in unresolved
    ensures Exact(g, f, wcs[f], unresolved[f])
  {
    if wcs[f].Bound? {
      FinishedStays(g, done, f);
      var i :| 0 <= i < |done| && done[i] == f;
      var p := BoundAttained(g, wcs, unresolved, done, i);
      forall q | PathFrom(g, f, q) ensures PathSum(g, q) <= wcs[f].n { PathWithin(g, wcs, unresolved, done, q); }
      forall call | Missing(g, f, call) ensures call in unresolved[f] {
        var h :| Reaches(g, f, h) && h in g && call in Own(g, h);
        var q :| Connects(g, f, h, q);
        MissingFound(g, wcs, unresolved, done, q, call);
      }
    }
  }

  /** So bounds do not depend on the order in which functions and calls are taken, which
      Python leaves open, nor do the unresolved calls of functions that never run away. */
  lemma ExactUnique(g: Graph, f: Id, w: Wcs, missing: set<string>, w': Wcs, missing': set<string>)
    requires Exact(g, f, w, missing) && Exact(g, f, w', missing')
    ensures w == w' && (!MayRunAway(g, f) ==> missing == missing')
  {
    if w.Bound? {
      var p :| PathFrom(g, f, p) && PathSum(g, p) == w.n;
      var p' :| PathFrom(g, f, p') && PathSum(g, p') == w'.n;
    }
  }

  // ---------------------------------------------------- unbounded functions

  /** How many calls are gone through up to the first that may run away. */
  ghost function BeforeRunaway(g: Graph, rs: seq<Id>): (k: nat)
    ensures k <= |rs| && (k < |rs| ==> MayRunAway(g, rs[k]))
    ensures forall j :: 0 <= j < k ==> !MayRunAway(g, rs[j])
  {
    if rs == [] || MayRunAway(g, rs[0]) then 0 else
      assert forall j :: 0 < j < |rs| ==> rs[j] == rs[1..][j - 1];
      1 + BeforeRunaway(g, rs[1..])
  }

  /** The search of an unbounded function stops at its first call that may run away, in the
      order rs of its calls: what it has are its own unresolved calls and those that the calls
      before can come to.  A pointer call stops it at once. */
  ghost predicate Partial(g: Graph, f: Id, rs: seq<Id>, missing: set<string>) {
    && f in g
    && forall call :: call in missing <==>
         || call in Own(g, f)
         || (!g[f].hasPtrCall && exists j :: 0 <= j < BeforeRunaway(g, rs) && Missing(g, rs[j], call))
  }

  /** The search for f has stopped at its call k, the first unbounded one. */
  ghost predicate StoppedAt(g: Graph, f: Id, rs: seq<Id>, k: nat, wcs: Bounds, unresolved: Names) {
    && f in g && f in unresolved && k < |rs| && rs[k] in wcs && wcs[rs[k]].Unbounded?
    && (forall j :: 0 <= j < k ==> rs[j] in wcs && rs[j] in unresolved && wcs[rs[j]].Bound?)
    && (forall call :: call in unresolved[f] <==>
         call in Own(g, f) || exists j :: 0 <= j < k && call in unresolved[rs[j]])
  }

  ghost predicate Stopped(g: Graph, f: Id, rs: seq<Id>, wcs: Bounds, unresolved: Names) {
    && f in g && f in unresolved
    && if g[f].hasPtrCall then unresolved[f] == Own(g, f) else exists k: nat :: StoppedAt(g, f, rs, k, wcs, unresolved)
  }

  /** Every unbounded function not being worked on any more has stopped like that. */
  ghost predicate Halted(g: Graph, rCalls: map<Id, seq<Id>>, wcs: Bounds, unresolved: Names, parents: seq<Id>) {
    forall f :: f in wcs && wcs[f].Unbounded? && f !in parents ==>
      f in rCalls && Stopped(g, f, rCalls[f], wcs, unresolved)
  }

  lemma StoppedKept(g: Graph, x: Id, rs: seq<Id>, wcs: Bounds, unresolved: Names, f: Id, w: Wcs)
    requires Stopped(g, x, rs, wcs, unresolved) && (f in wcs ==> wcs[f] == w)
    ensures Stopped(g, x, rs, wcs[f := w], unresolved)
  {
    hide Own;
    if !g[x].hasPtrCall {
      var k: nat :| StoppedAt(g, x, rs, k, wcs, unresolved);
      assert StoppedAt(g, x, rs, k, wcs[f := w], unresolved);
    }
  }

  /** A function is found to be unbounded, or its search is over. */
  lemma HaltedMark(g: Graph, rCalls: map<Id, seq<Id>>, wcs: Bounds, unresolved: Names, parents: seq<Id>, f: Id, w: Wcs)
    requires Halted(g, rCalls, wcs, unresolved, parents + [f]) && (f in wcs ==> wcs[f] == w) && f in rCalls
    requires f in parents || w.Bound? || Stopped(g, f, rCalls[f], wcs[f := w], unresolved)
    ensures Halted(g, rCalls, wcs[f := w], unresolved, parents)
  {
    hide Stopped;
    forall x | x in wcs && wcs[x].Unbounded? && x !in parents && x != f
      ensures x in rCalls && Stopped(g, x, rCalls[x], wcs[f := w], unresolved)
    {
      StoppedKept(g, x, rCalls[x], wcs, unresolved, f, w);
    }
  }

  /** What is gathered for f is no one else's business. */
  lemma HaltedGather(g: Graph, rCalls: map<Id, seq<Id>>, wcs: Bounds, unresolved: Names, parents: seq<Id>, f: Id,
                     us: set<string>)
    requires Halted(g, rCalls, wcs, unresolved, parents + [f]) && f !in wcs
    ensures Halted(g, rCalls, wcs, unresolved[f := us], parents + [f])
  {
    hide Own;
    forall x | x in wcs && wcs[x].Unbounded? && x !in parents + [f]
      ensures x in rCalls && Stopped(g, x, rCalls[x], wcs, unresolved[f := us])
    {
      if !g[x].hasPtrCall {
        var k: nat :| StoppedAt(g, x, rCalls[x], k, wcs, unresolved);
        assert StoppedAt(g, x, rCalls[x], k, wcs, unresolved[f := us]);
      }
    }
  }

  lemma StopHere(g: Graph, f: Id, rs: seq<Id>, k: nat, callMax: nat, wcs: Bounds, unresolved: Names)
    requires k < |rs| && Midway(g, f, rs, k, callMax, wcs, unresolved) && rs[k] in wcs && wcs[rs[k]].Unbounded?
    requires !g[f].hasPtrCall && (f in wcs ==> wcs[f].Unbounded?)
    ensures Stopped(g, f, rs, wcs[f := Unbounded], unresolved)
  {
    hide Own;
    assert StoppedAt(g, f, rs, k, wcs[f := Unbounded], unresolved);
  }

  lemma StopAtPointer(g: Graph, wcs: Bounds, unresolved: Names, done: seq<Id>, parents: seq<Id>, f: Id, rs: seq<Id>)
    requires Known(g, wcs, unresolved, done, parents) && f in g && f !in wcs && f !in parents && g[f].hasPtrCall
    ensures Stopped(g, f, rs, wcs[f := Unbounded], unresolved)
  {
  }

  /** What has been gathered by then is what the calls before the first runaway can come to. */
  lemma StoppedPartial(g: Graph, wcs: Bounds, unresolved: Names, done: seq<Id>, f: Id, rs: seq<Id>)
    requires Finished(g, wcs, unresolved, done) && Stopped(g, f, rs, wcs, unresolved)
    requires forall h :: h in rs ==> h in wcs && h in unresolved
    ensures Partial(g, f, rs, unresolved[f])
  {
    hide Own, MayRunAway, Missing;
    if !g[f].hasPtrCall {
      var k: nat :| StoppedAt(g, f, rs, k, wcs, unresolved);
      forall j | 0 <= j <= k ensures Exact(g, rs[j], wcs[rs[j]], unresolved[rs[j]]) {
        assert rs[j] in rs;
        FinishedExact(g, wcs, unresolved, done, rs[j]);
      }
      assert BeforeRunaway(g, rs) == k;
    }
  }

  /** A graph in which the order matters: `a` calls `p`, which calls through a pointer, and
      `q`, which calls a function nobody knows. */
  const P := Global("p")
  const Q := Global("q")
  const A := Global("a")

  function OrderGraph(): Graph {
    map[A := Fxn("t", {"p", "q"}, false, 0, false), P := Fxn("t", {}, true, 0, false),
        Q := Fxn("t", {"x"}, false, 0, false)]
  }

  /** Both orders are possible, and the sets they give to `a` differ. */
  lemma OrderMatters()
    ensures Listed(OrderGraph(), A, [P, Q]) && Listed(OrderGraph(), A, [Q, P])
    ensures Partial(OrderGraph(), A, [P, Q], {}) && Partial(OrderGraph(), A, [Q, P], {"x"})
  {
    var g := OrderGraph();
    assert g[A].calls == {"p", "q"} && "p" in g[A].calls && "q" in g[A].calls;
    assert Find(g, "t", "p") == Some(P) && Find(g, "t", "q") == Some(Q) && Find(g, "t", "x") == None;
    PointerCall(g, P);
    QStays(g);
    assert Own(g, A) == {};
    assert BeforeRunaway(g, [P, Q]) == 0;
    assert BeforeRunaway(g, [Q, P]) == 1;
  }

  lemma QStays(g: Graph)
    requires g == OrderGraph()
    ensures !MayRunAway(g, Q) && forall call :: Missing(g, Q, call) <==> call == "x"
  {
    assert Own(g, Q) == {"x"};
    OwnMissing(g, Q);
    forall h ensures !Edge(g, Q, h) {}
    forall p | PathFrom(g, Q, p) ensures |p| == 1 {
      if |p| >= 2 { PathTail(g, p); }
    }
  }

  // -------------------------------------------------------------- the search

  /** rs lists the functions these calls lead to, and us the calls that lead nowhere. */
  ghost predicate Resolved(g: Graph, tu: string, calls: set<string>, rs: seq<Id>, us: set<string>) {
    && (forall h :: h in rs <==> exists call :: call in calls && Find(g, tu, call) == Some(h))
    && (forall call :: call in us <==> call in calls && Find(g, tu, call).None?)
  }

  ghost predicate AllResolved(g: Graph, fs: set<Id>, rCalls: map<Id, seq<Id>>, unresolved: Names) {
    forall f :: f in fs ==>
      f in g && f in rCalls && f in unresolved && Resolved(g, g[f].tu, g[f].calls, rCalls[f], unresolved[f])
  }

  /** Only the entry of f is new or changed. */
  ghost predicate SameBut<T>(f: Id, m: map<Id, T>, m': map<Id, T>) {
    m'.Keys == m.Keys + {f} && forall h :: h in m && h != f ==> m'[h] == m[h]
  }

  lemma SameButAgain<T>(f: Id, m: map<Id, T>, m': map<Id, T>, x: T)
    requires SameBut(f, m, m')
    ensures SameBut(f, m, m'[f := x])
  {
  }

  lemma SameButNew<T>(f: Id, m: map<Id, T>, x: T)
    ensures SameBut(f, m, m[f := x])
  {
  }

  lemma NothingResolvedYet(g: Graph, fs: set<Id>, rCalls: map<Id, seq<Id>>, unresolved: Names)
    requires fs == {}
    ensures AllResolved(g, fs, rCalls, unresolved)
  {
  }

  /** Resolving the calls of one more function. */
  lemma OneMoreFunction(g: Graph, fs: set<Id>, f: Id, rCalls: map<Id, seq<Id>>, unresolved: Names,
                        rCalls': map<Id, seq<Id>>, unresolved': Names)
    requires AllResolved(g, fs, rCalls, unresolved) && SameBut(f, rCalls, rCalls')
    requires SameBut(f, unresolved, unresolved')
    requires f in g && Resolved(g, g[f].tu, g[f].calls, rCalls'[f], unresolved'[f])
    ensures AllResolved(g, fs + {f}, rCalls', unresolved') && unresolved'.Keys == unresolved.Keys + {f}
  {
    hide Resolved;
  }

  lemma OneMoreCall(g: Graph, tu: string, calls: set<string>, call: string, rs: seq<Id>, us: set<string>)
    requires Resolved(g, tu, calls, rs, us)
    ensures match Find(g, tu, call)
      case Some(h) => Resolved(g, tu, calls + {call}, rs + [h], us)
      case None => Resolved(g, tu, calls + {call}, rs, us + {call})
  {
  }

  ghost predicate Listed(g: Graph, f: Id, rs: seq<Id>) {
    forall h :: h in rs <==> Edge(g, f, h)
  }

  lemma ResolvedAre(g: Graph, f: Id, rs: seq<Id>, us: set<string>)
    requires f in g && Resolved(g, g[f].tu, g[f].calls, rs, us)
    ensures Listed(g, f, rs) && us == Own(g, f)
  {
  }

  /** What the search knows, with these functions in the middle of being worked on: before a
      function is worked on its unresolved calls are its own. */
  ghost predicate Known(g: Graph, wcs: Bounds, unresolved: Names, done: seq<Id>, parents: seq<Id>) {
    && Finished(g, wcs, unresolved, done)
    && wcs.Keys <= g.Keys && unresolved.Keys == g.Keys
    && forall f :: f in g && f !in wcs && f !in parents ==> unresolved[f] == Own(g, f)
  }

  /** The functions being worked on: a path of calls that ends in a call of f. */
  ghost predicate Chained(g: Graph, parents: seq<Id>, f: Id) {
    IsPath(g, parents + [f]) && forall i, j :: 0 <= i < j < |parents| ==> parents[i] != parents[j]
  }

  ghost predicate NoneKnown(wcs: Bounds, fs: seq<Id>) {
    forall f :: f in fs ==> f !in wcs
  }

  /** Nothing that was known has changed, nor what was gathered for these functions. */
  ghost predicate Keeps(wcs: Bounds, unresolved: Names, parents: seq<Id>,
                        wcs': Bounds, unresolved': Names) {
    && (forall h :: h in wcs ==> h in wcs' && wcs'[h] == wcs[h])
    && (forall h :: (h in wcs || h in parents) && h in unresolved ==>
         h in unresolved' && unresolved'[h] == unresolved[h])
  }

  lemma KeepsOn(parents: seq<Id>, f: Id, wcs: Bounds, unresolved: Names,
                wcs1: Bounds, unresolved1: Names, wcs2: Bounds, unresolved2: Names)
    requires Keeps(wcs, unresolved, parents, wcs1, unresolved1)
    requires Keeps(wcs1, unresolved1, parents + [f], wcs2, unresolved2)
    ensures Keeps(wcs, unresolved, parents, wcs2, unresolved2)
  {
    assert forall p :: p in parents ==> p in parents + [f];
  }

  /** What is found out about f changes nothing else. */
  lemma KeepsNew(parents: seq<Id>, f: Id, wcs: Bounds, unresolved: Names,
                 wcs1: Bounds, unresolved1: Names, w: Wcs, us: set<string>)
    requires Keeps(wcs, unresolved, parents, wcs1, unresolved1) && f !in wcs
    ensures Keeps(wcs, unresolved, parents, wcs1[f := w], unresolved1)
    ensures f !in parents ==> Keeps(wcs, unresolved, parents, wcs1, unresolved1[f := us])
  {
  }

  lemma KeepsSame(parents: seq<Id>, wcs: Bounds, unresolved: Names)
    ensures Keeps(wcs, unresolved, parents, wcs, unresolved)
  {
  }

  /** What has been gathered for f after its first k calls. */
  ghost predicate Midway(g: Graph, f: Id, rs: seq<Id>, k: nat, callMax: nat, wcs: Bounds, unresolved: Names)
    requires k <= |rs|
  {
    && f in g && f in unresolved
    && (forall j :: 0 <= j < k ==> rs[j] in wcs && rs[j] in unresolved && wcs[rs[j]].Bound? && wcs[rs[j]].n <= callMax)
    && (callMax == 0 || exists j :: 0 <= j < k && wcs[rs[j]].n == callMax)
    && (forall call :: call in unresolved[f] <==>
         call in Own(g, f) || exists j :: 0 <= j < k && call in unresolved[rs[j]])
  }

  lemma MarkUnbounded(g: Graph, wcs: Bounds, unresolved: Names, done: seq<Id>, parents: seq<Id>, f: Id)
    requires Known(g, wcs, unresolved, done, parents + [f]) && f in g && MayRunAway(g, f)
    requires f in wcs ==> wcs[f] == Unbounded
    ensures Known(g, wcs[f := Unbounded], unresolved, done, parents)
  {
    hide BoundOk, MissingOk, Missing, MayRunAway, Layered, Own;
    forall h | h in done ensures BoundOk(g, wcs[f := Unbounded], h) { BoundKept(g, wcs, f, Unbounded, h); }
  }

  lemma Finish(g: Graph, wcs: Bounds, unresolved: Names, done: seq<Id>, parents: seq<Id>,
               f: Id, rs: seq<Id>, callMax: nat)
    requires Known(g, wcs, unresolved, done, parents + [f]) && f in g && f !in wcs && !g[f].hasPtrCall
    requires Listed(g, f, rs) && Midway(g, f, rs, |rs|, callMax, wcs, unresolved)
    ensures Known(g, wcs[f := Bound(callMax + g[f].localStack)], unresolved, done + [f], parents)
  {
    hide Layered, Listed, Midway, BoundOk, MissingOk, MayRunAway, Missing, Own, Edge;
    var wcs', done' := wcs[f := Bound(callMax + g[f].localStack)], done + [f];
    FinishLayered(g, wcs, unresolved, done, f, rs, callMax);
    forall h | h in done' ensures BoundOk(g, wcs', h) && MissingOk(g, unresolved, h) {
      if h == f {
        FinishBound(g, wcs, wcs', f, rs, callMax, unresolved);
        FinishMissing(g, f, rs, callMax, wcs, unresolved);
      } else {
        assert h in done;
        BoundKept(g, wcs, f, wcs'[f], h);
      }
    }
  }

  lemma BoundKept(g: Graph, wcs: Bounds, f: Id, w: Wcs, h: Id)
    requires BoundOk(g, wcs, h) && (f in wcs ==> wcs[f].Unbounded?) && f != h
    ensures BoundOk(g, wcs[f := w], h)
  {
    hide Edge;
  }

  lemma FinishLayered(g: Graph, wcs: Bounds, unresolved: Names, done: seq<Id>, f: Id, rs: seq<Id>, callMax: nat)
    requires Layered(g, done) && (forall h :: h in done <==> h in wcs && wcs[h].Bound?)
    requires f in g && f !in wcs && !g[f].hasPtrCall
    requires Listed(g, f, rs) && Midway(g, f, rs, |rs|, callMax, wcs, unresolved)
    ensures Layered(g, done + [f])
  {
    hide Edge, Own;
    var done' := done + [f];
    forall i, h | 0 <= i < |done'| && Edge(g, done'[i], h) ensures h in done'[..i] {
      if i == |done| {
        assert h in rs && h in done;
        assert done'[..i] == done;
      } else {
        assert h in done[..i];
        assert done'[..i] == done[..i];
      }
    }
  }

  lemma FinishBound(g: Graph, wcs: Bounds, wcs': Bounds, f: Id, rs: seq<Id>, callMax: nat, unresolved: Names)
    requires f in g && f !in wcs && wcs' == wcs[f := Bound(callMax + g[f].localStack)]
    requires Listed(g, f, rs) && Midway(g, f, rs, |rs|, callMax, wcs, unresolved)
    ensures BoundOk(g, wcs', f)
  {
    hide Edge, Own;
    if callMax > 0 {
      var j :| 0 <= j < |rs| && wcs[rs[j]].n == callMax;
      assert rs[j] in rs && Edge(g, f, rs[j]);
    }
  }

  lemma FinishMissing(g: Graph, f: Id, rs: seq<Id>, callMax: nat, wcs: Bounds, unresolved: Names)
    requires Listed(g, f, rs) && Midway(g, f, rs, |rs|, callMax, wcs, unresolved)
    ensures MissingOk(g, unresolved, f)
  {
    hide Edge, Own;
    forall call ensures call in unresolved[f] <==>
      call in Own(g, f) || exists h :: Edge(g, f, h) && h in unresolved && call in unresolved[h]
    {
      if h :| Edge(g, f, h) && h in unresolved && call in unresolved[h] {
        assert h in rs;
        var j :| 0 <= j < |rs| && rs[j] == h;
      }
      if j :| 0 <= j < |rs| && call in unresolved[rs[j]] {
        assert rs[j] in rs;
      }
    }
  }

  /** The next call of f turned out to be bounded. */
  lemma Gather(g: Graph, wcs: Bounds, unresolved: Names, done: seq<Id>, parents: seq<Id>,
               f: Id, rs: seq<Id>, k: nat, callMax: nat)
    requires Known(g, wcs, unresolved, done, parents + [f]) && f in g && f !in wcs
    requires Listed(g, f, rs) && k < |rs| && Midway(g, f, rs, k, callMax, wcs, unresolved)
    requires rs[k] in wcs && wcs[rs[k]].Bound?
    ensures rs[k] in unresolved && rs[k] != f
    ensures var unresolved' := unresolved[f := unresolved[f] + unresolved[rs[k]]];
      && Known(g, wcs, unresolved', done, parents + [f])
      && Midway(g, f, rs, k + 1, if callMax < wcs[rs[k]].n then wcs[rs[k]].n else callMax, wcs, unresolved')
  {
    var h := rs[k];
    assert h in rs && Edge(g, f, h);
    hide Edge, Own, Finished, Listed;
    var unresolved' := unresolved[f := unresolved[f] + unresolved[h]];
    GatherFinished(g, wcs, unresolved, done, f, h);
    GatherMidway(g, wcs, unresolved, f, rs, k, callMax);
  }

  lemma GatherMidway(g: Graph, wcs: Bounds, unresolved: Names, f: Id, rs: seq<Id>, k: nat, callMax: nat)
    requires k < |rs| && Midway(g, f, rs, k, callMax, wcs, unresolved) && f !in wcs
    requires rs[k] in wcs && wcs[rs[k]].Bound? && rs[k] in unresolved
    ensures Midway(g, f, rs, k + 1, if callMax < wcs[rs[k]].n then wcs[rs[k]].n else callMax, wcs,
                   unresolved[f := unresolved[f] + unresolved[rs[k]]])
  {
    hide Own;
    var unresolved' := unresolved[f := unresolved[f] + unresolved[rs[k]]];
    forall j | 0 <= j < k ensures rs[j] != f { assert rs[j] in wcs; }
    forall call ensures call in unresolved'[f] <==>
      call in Own(g, f) || exists j :: 0 <= j < k + 1 && call in unresolved'[rs[j]]
    {
      if j :| 0 <= j < k + 1 && call in unresolved'[rs[j]] {
        assert j < k ==> unresolved'[rs[j]] == unresolved[rs[j]];
      }
      if j :| 0 <= j < k && call in unresolved[rs[j]] {
        assert unresolved'[rs[j]] == unresolved[rs[j]];
      }
    }
  }

  lemma GatherFinished(g: Graph, wcs: Bounds, unresolved: Names, done: seq<Id>, f: Id, h: Id)
    requires Finished(g, wcs, unresolved, done) && f in g && f !in wcs && f in unresolved && h in unresolved
    requires Edge(g, f, h)
    ensures Finished(g, wcs, unresolved[f := unresolved[f] + unresolved[h]], done)
  {
    hide MissingOk, BoundOk, Missing, MayRunAway, Layered, Own, Edge;
    var unresolved' := unresolved[f := unresolved[f] + unresolved[h]];
    forall x | x in done ensures MissingOk(g, unresolved', x) { MissingKept(g, wcs, unresolved, f, unresolved'[f], x); }
    forall call | call in unresolved[h] ensures Missing(g, f, call) { MissingCons(g, f, h, call); }
  }

  lemma MissingKept(g: Graph, wcs: Bounds, unresolved: Names, f: Id, us: set<string>, x: Id)
    requires MissingOk(g, unresolved, x) && BoundOk(g, wcs, x) && f !in wcs
    ensures MissingOk(g, unresolved[f := us], x)
  {
    hide Edge, Own;
    assert x != f && forall y :: Edge(g, x, y) ==> y != f;
  }

  /** Working on a call leaves what has been gathered alone. */
  lemma MidwayKept(g: Graph, f: Id, rs: seq<Id>, k: nat, callMax: nat, wcs: Bounds, unresolved: Names,
                   parents: seq<Id>, wcs': Bounds, unresolved': Names)
    requires k <= |rs| && Midway(g, f, rs, k, callMax, wcs, unresolved) && f in parents
    requires Keeps(wcs, unresolved, parents, wcs', unresolved')
    ensures Midway(g, f, rs, k, callMax, wcs', unresolved')
  {
  }

  /** Calling back to a function in the middle of its own search closes a cycle. */
  lemma CycleClosed(g: Graph, parents: seq<Id>, f: Id)
    requires Chained(g, parents, f) && f in parents
    ensures f in g && MayRunAway(g, f)
  {
    var i :| 0 <= i < |parents| && parents[i] == f;
    var p := (parents + [f])[i..];
    PathIn(g, parents + [f], i);
    forall k | 0 <= k < |p| - 1 ensures Edge(g, p[k], p[k + 1]) {
      assert Edge(g, (parents + [f])[i + k], (parents + [f])[i + k + 1]);
    }
    assert Connects(g, f, f, p);
    ReachesSelf(g, f);
  }

  lemma ChainOn(g: Graph, parents: seq<Id>, f: Id, h: Id)
    requires Chained(g, parents, f) && f !in parents && Edge(g, f, h)
    ensures Chained(g, parents + [f], h)
  {
    var p, q := parents + [f], parents + [f] + [h];
    forall i | 0 <= i < |q| - 1 ensures Edge(g, q[i], q[i + 1]) {
      assert i < |p| - 1 ==> Edge(g, p[i], p[i + 1]);
    }
  }

  lemma Widen(g: Graph, wcs: Bounds, unresolved: Names, done: seq<Id>, parents: seq<Id>, f: Id)
    requires Known(g, wcs, unresolved, done, parents)
    ensures Known(g, wcs, unresolved, done, parents + [f])
  {
  }

  lemma WidenHalted(g: Graph, rCalls: map<Id, seq<Id>>, wcs: Bounds, unresolved: Names, parents: seq<Id>, f: Id)
    requires Halted(g, rCalls, wcs, unresolved, parents)
    ensures Halted(g, rCalls, wcs, unresolved, parents + [f])
  {
    hide Stopped;
  }

  lemma PointerCall(g: Graph, f: Id)
    requires f in g && g[f].hasPtrCall
    ensures MayRunAway(g, f)
  {
    ReachesSelf(g, f);
  }

  lemma CallRunsAway(g: Graph, wcs: Bounds, unresolved: Names, done: seq<Id>, parents: seq<Id>,
                     f: Id, rs: seq<Id>, k: nat)
    requires Known(g, wcs, unresolved, done, parents) && Listed(g, f, rs) && k < |rs|
    requires rs[k] in wcs && wcs[rs[k]].Unbounded?
    ensures MayRunAway(g, f)
  {
    assert rs[k] in rs;
    RunAwayCons(g, f, rs[k]);
  }

  lemma NothingGathered(g: Graph, wcs: Bounds, unresolved: Names, done: seq<Id>, parents: seq<Id>,
                        f: Id, rs: seq<Id>)
    requires Known(g, wcs, unresolved, done, parents) && f in g && f !in wcs && f !in parents
    ensures Midway(g, f, rs, 0, 0, wcs, unresolved)
  {
  }

  function Unvisited(g: Graph, parents: seq<Id>): set<Id> {
    set f | f in g && f !in parents
  }

  lemma NextCall(g: Graph, parents: seq<Id>, f: Id, rs: seq<Id>, k: nat)
    requires Chained(g, parents, f) && f !in parents && Listed(g, f, rs) && k < |rs|
    ensures f in g && rs[k] in g && Chained(g, parents + [f], rs[k])
    ensures Unvisited(g, parents + [f]) < Unvisited(g, parents)
  {
    assert rs[k] in rs;
    ChainOn(g, parents, f, rs[k]);
    assert f in Unvisited(g, parents) && f !in Unvisited(g, parents + [f]);
  }

  // --------------------------------------------------------------- the start

  function ByHand(g: Graph): Bounds {
    map f | f in g && g[f].manual :: Bound(g[f].localStack)
  }

  ghost function SeqOf(s: set<Id>): (l: seq<Id>)
    ensures forall f :: f in l <==> f in s
    ensures forall i, j :: 0 <= i < j < |l| ==> l[i] != l[j]
    decreases |s|
  {
    if s == {} then [] else
      var f :| f in s;
      [f] + SeqOf(s - {f})
  }

  lemma StartKnown(g: Graph, rCalls: map<Id, seq<Id>>, unresolved: Names)
    requires GraphOk(g) && AllResolved(g, g.Keys, rCalls, unresolved) && unresolved.Keys == g.Keys
    ensures Known(g, ByHand(g), unresolved, SeqOf(ByHand(g).Keys), [])
    ensures forall f :: f in g ==> f in rCalls && Listed(g, f, rCalls[f])
    ensures Halted(g, rCalls, ByHand(g), unresolved, [])
  {
    hide Resolved, Listed, Own, BoundOk, MissingOk, Layered, Missing, SeqOf;
    forall f | f in g
      ensures Listed(g, f, rCalls[f]) && unresolved[f] == Own(g, f)
      ensures forall call :: call in unresolved[f] ==> Missing(g, f, call)
    {
      ResolvedAre(g, f, rCalls[f], unresolved[f]);
      OwnMissing(g, f);
    }
    HandLayered(g, SeqOf(ByHand(g).Keys));
    forall f | f in g && g[f].manual ensures BoundOk(g, ByHand(g), f) && MissingOk(g, unresolved, f) {
      HandOk(g, unresolved, f);
    }
  }

  lemma OwnMissing(g: Graph, f: Id)
    requires f in g
    ensures forall call :: call in Own(g, f) ==> Missing(g, f, call)
  {
    hide Reaches;
    ReachesSelf(g, f);
  }

  lemma HandOk(g: Graph, unresolved: Names, f: Id)
    requires GraphOk(g) && f in g && g[f].manual && f in unresolved && unresolved[f] == Own(g, f)
    ensures BoundOk(g, ByHand(g), f) && MissingOk(g, unresolved, f)
  {
  }

  lemma HandLayered(g: Graph, l: seq<Id>)
    requires GraphOk(g) && (forall i, j :: 0 <= i < j < |l| ==> l[i] != l[j])
    requires forall f :: f in l ==> f in g && g[f].manual
    ensures Layered(g, l)
  {
  }

  lemma NothingResolved(g: Graph, tu: string, calls: set<string>)
    requires calls == {}
    ensures Resolved(g, tu, calls, [], {})
  {
  }

  class CallGraph {
    const g: Graph
    var rCalls: map<Id, seq<Id>>
    var unresolved: Names
    var wcs: Bounds
    var parents: seq<Id>
    ghost var done: seq<Id>

    /** Stack sizes given by hand are known from the start. */
    constructor (g: Graph)
      requires GraphOk(g)
      ensures this.g == g && wcs == ByHand(g)
      ensures rCalls == map[] && unresolved == map[] && parents == []
    {
      this.g := g;
      rCalls, unresolved, parents, done := map[], map[], [], [];
      wcs := ByHand(g);
    }

    ghost predicate Valid()
      reads this
    {
      && Known(g, wcs, unresolved, done, parents) && Halted(g, rCalls, wcs, unresolved, parents)
      && forall f :: f in g ==> f in rCalls && Listed(g, f, rCalls[f])
    }

    /** `resolve_calls`: look up every call of f, in whatever order the set gives them. */
    method ResolveCalls(f: Id)
      requires f in g
      modifies this`rCalls, this`unresolved
      ensures f in rCalls && f in unresolved && Resolved(g, g[f].tu, g[f].calls, rCalls[f], unresolved[f])
      ensures SameBut(f, old(rCalls), rCalls) && SameBut(f, old(unresolved), unresolved)
    {
      hide Resolved, Find, SameBut;
      var fxn := g[f];
      SameButNew(f, rCalls, []);
      SameButNew(f, unresolved, {});
      rCalls, unresolved := rCalls[f := []], unresolved[f := {}];
      var todo := fxn.calls;
      NothingResolved(g, fxn.tu, fxn.calls - todo);
      while todo != {}
        invariant todo <= fxn.calls && f in rCalls && f in unresolved
        invariant Resolved(g, fxn.tu, fxn.calls - todo, rCalls[f], unresolved[f])
        invariant SameBut(f, old(rCalls), rCalls) && SameBut(f, old(unresolved), unresolved)
        decreases |todo|
      {
        var call :| call in todo;
        OneMoreCall(g, fxn.tu, fxn.calls - todo, call, rCalls[f], unresolved[f]);
        assert fxn.calls - todo + {call} == fxn.calls - (todo - {call});
        todo := todo - {call};
        var found := Find(g, fxn.tu, call);
        if found.Some? {
          SameButAgain(f, old(rCalls), rCalls, rCalls[f] + [found.value]);
          rCalls := rCalls[f := rCalls[f] + [found.value]];
        } else {
          SameButAgain(f, old(unresolved), unresolved, unresolved[f] + {call});
          unresolved := unresolved[f := unresolved[f] + {call}];
        }
      }
      assert fxn.calls - todo == fxn.calls;
    }

    /** `resolve_all_calls`. */
    method ResolveAllCalls()
      requires GraphOk(g) && wcs == ByHand(g) && unresolved == map[] && parents == []
      modifies this`rCalls, this`unresolved, this`done
      ensures Valid()
    {
      hide Resolved, AllResolved, SameBut, Find, Known, Listed, SeqOf, ByHand, Halted, GraphOk;
      var todo := g.Keys;
      ghost var solved: set<Id> := {};
      NothingResolvedYet(g, solved, rCalls, unresolved);
      while todo != {}
        invariant todo + solved == g.Keys && unresolved.Keys == solved
        invariant AllResolved(g, solved, rCalls, unresolved)
        decreases |todo|
      {
        var f :| f in todo;
        ghost var rCalls0, unresolved0 := rCalls, unresolved;
        ResolveCalls(f);
        OneMoreFunction(g, solved, f, rCalls0, unresolved0, rCalls, unresolved);
        todo, solved := todo - {f}, solved + {f};
      }
      StartKnown(g, rCalls, unresolved);
      done := SeqOf(ByHand(g).Keys);
    }

    /** `calc_wcs`: a depth-first search that keeps what it finds, and the functions it is in
        the middle of.  Those stay unknown unless f calls back to one of them, and then f is
        unbounded. */
    method CalcWcs(f: Id)
      requires Valid() && f in g && Chained(g, parents, f) && NoneKnown(wcs, parents)
      modifies this`wcs, this`unresolved, this`parents, this`done
      ensures Valid() && parents == old(parents) && f in wcs
      ensures wcs[f].Bound? ==> NoneKnown(wcs, parents)
      ensures forall p :: p in parents && p in wcs ==> wcs[p].Unbounded?
      ensures Keeps(old(wcs), old(unresolved), parents, wcs, unresolved)
      decreases Unvisited(g, parents)
    {
      hide Known, Chained, Midway, MayRunAway, Listed, Keeps, Unvisited, Edge, Own, Halted, Stopped, Reaches;
      KeepsSame(parents, wcs, unresolved);
      if f in wcs {
        return;
      }
      Widen(g, wcs, unresolved, done, parents, f);
      WidenHalted(g, rCalls, wcs, unresolved, parents, f);
      KeepsNew(parents, f, wcs, unresolved, wcs, unresolved, Unbounded, {});
      if g[f].hasPtrCall {
        PointerCall(g, f);
        if f !in parents { StopAtPointer(g, wcs, unresolved, done, parents, f, rCalls[f]); }
        HaltedMark(g, rCalls, wcs, unresolved, parents, f, Unbounded);
        MarkUnbounded(g, wcs, unresolved, done, parents, f);
        wcs := wcs[f := Unbounded];
        return;
      }
      if f in parents {
        CycleClosed(g, parents, f);
        HaltedMark(g, rCalls, wcs, unresolved, parents, f, Unbounded);
        MarkUnbounded(g, wcs, unresolved, done, parents, f);
        wcs := wcs[f := Unbounded];
        return;
      }
      var callMax: nat, k: nat := 0, 0;
      NothingGathered(g, wcs, unresolved, done, parents, f, rCalls[f]);
      while k < |rCalls[f]|
        invariant k <= |rCalls[f]| && parents == old(parents)
        invariant Known(g, wcs, unresolved, done, parents + [f]) && f !in wcs && NoneKnown(wcs, parents)
        invariant Midway(g, f, rCalls[f], k, callMax, wcs, unresolved)
        invariant Keeps(old(wcs), old(unresolved), parents, wcs, unresolved)
        invariant Halted(g, rCalls, wcs, unresolved, parents + [f])
      {
        ghost var wcs0, unresolved0 := wcs, unresolved;
        NextCall(g, parents, f, rCalls[f], k);
        var h := rCalls[f][k];
        parents := parents + [f];
        CalcWcs(h);
        parents := parents[..|parents| - 1];
        KeepsOn(parents, f, old(wcs), old(unresolved), wcs0, unresolved0, wcs, unresolved);
        KeepsNew(parents, f, old(wcs), old(unresolved), wcs, unresolved, Unbounded, {});
        MidwayKept(g, f, rCalls[f], k, callMax, wcs0, unresolved0, parents + [f], wcs, unresolved);
        if wcs[h] == Unbounded {
          CallRunsAway(g, wcs, unresolved, done, parents + [f], f, rCalls[f], k);
          StopHere(g, f, rCalls[f], k, callMax, wcs, unresolved);
          HaltedMark(g, rCalls, wcs, unresolved, parents, f, Unbounded);
          MarkUnbounded(g, wcs, unresolved, done, parents, f);
          wcs := wcs[f := Unbounded];
          return;
        }
        Gather(g, wcs, unresolved, done, parents, f, rCalls[f], k, callMax);
        KeepsNew(parents, f, old(wcs), old(unresolved), wcs, unresolved, Unbounded, unresolved[f] + unresolved[h]);
        HaltedGather(g, rCalls, wcs, unresolved, parents, f, unresolved[f] + unresolved[h]);
        callMax := if callMax < wcs[h].n then wcs[h].n else callMax;
        unresolved := unresolved[f := unresolved[f] + unresolved[h]];
        k := k + 1;
      }
      Finish(g, wcs, unresolved, done, parents, f, rCalls[f], callMax);
      HaltedMark(g, rCalls, wcs, unresolved, parents, f, Bound(callMax + g[f].localStack));
      KeepsNew(parents, f, old(wcs), old(unresolved), wcs, unresolved, Bound(callMax + g[f].localStack), {});
      wcs := wcs[f := Bound(callMax + g[f].localStack)];
      done := done + [f];
    }

    /** `calc_all_wcs`: every function's bound is exact, and so are the unresolved calls of a
        bounded one; those of an unbounded one are as far as its search came. */
    method CalcAllWcs()
      requires Valid() && parents == []
      modifies this`wcs, this`unresolved, this`parents, this`done
      ensures Valid() && wcs.Keys == unresolved.Keys == g.Keys
      ensures forall f :: f in g ==> Exact(g, f, wcs[f], unresolved[f])
      ensures forall f :: f in g && wcs[f].Unbounded? ==> Partial(g, f, rCalls[f], unresolved[f])
    {
      hide Known, Finished, Listed, Exact, Halted, Partial;
      var todo := g.Keys;
      while todo != {}
        invariant todo <= g.Keys && Valid() && parents == []
        invariant forall f :: f in g.Keys - todo ==> f in wcs
        decreases |todo|
      {
        var f :| f in todo;
        assert IsPath(g, [] + [f]);
        CalcWcs(f);
        todo := todo - {f};
      }
      AllExact(g, rCalls, wcs, unresolved, done);
    }
  }

  lemma AllExact(g: Graph, rCalls: map<Id, seq<Id>>, wcs: Bounds, unresolved: Names, done: seq<Id>)
    requires Known(g, wcs, unresolved, done, []) && Halted(g, rCalls, wcs, unresolved, [])
    requires forall f :: f in g ==> f in wcs && f in rCalls && Listed(g, f, rCalls[f])
    ensures wcs.Keys == unresolved.Keys == g.Keys
    ensures forall f :: f in g ==> Exact(g, f, wcs[f], unresolved[f])
    ensures forall f :: f in g && wcs[f].Unbounded? ==> Partial(g, f, rCalls[f], unresolved[f])
  {
    hide Exact, Partial, Finished, Stopped, Own;
    forall f | f in g ensures Exact(g, f, wcs[f], unresolved[f]) {
      FinishedExact(g, wcs, unresolved, done, f);
    }
    forall f | f in g && wcs[f].Unbounded? ensures Partial(g, f, rCalls[f], unresolved[f]) {
      forall h | h in rCalls[f] ensures h in wcs && h in unresolved { assert Edge(g, f, h); }
      StoppedPartial(g, wcs, unresolved, done, f, rCalls[f]);
    }
  }
}
