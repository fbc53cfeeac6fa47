/** Mutexes with priority inheritance as a transition system (rt-thread/src/ipc.c,
    rt-thread/src/thread.c).  Lower numbers are more urgent.  A thread takes a mutex only
    while it owns no other one; the source restores priorities correctly only then. */
module MutexProtocol {
  import opened IpcThreads
  import opened Lists
  import opened Wrappers

  type Mid = nat

  const HOLD_MAX := 255
  const NO_PRIORITY := 0xff

  datatype Status = Active | Blocked(on: Mid) | Resumed(error: int)

  /** `prio` is the current priority; `base` is the priority the thread has when it owns
      nothing. */
  datatype Thread = Thread(prio: nat, base: nat, status: Status)

  datatype Mutex = Mutex(value: nat, owner: Option<Tid>, hold: nat, original: nat, waiters: seq<Tid>)

  type Threads = map<Tid, Thread>

  datatype State = State(mutexes: map<Mid, Mutex>, threads: Threads)

  datatype Outcome = Taken | Full | TimedOut | Waits

  function PrioOf(threads: Threads): Tid -> nat {
    x => if x in threads then threads[x].prio else 0
  }

  // ------------------------------------------------------- one mutex at a time

  /** What the critical sections of `rt_mutex_take` and `rt_mutex_release` assume. */
  predicate Sane(m: Mutex, threads: Threads) {
    && (m.owner.Some? ==> m.owner.value in threads && m.value == 0 && 1 <= m.hold <= HOLD_MAX)
    && (m.owner.None? ==> m.value == 1 && m.hold == 0)
    && (forall t :: t in m.waiters ==> t in threads)
  }

  function TakeResult(m: Mutex, t: Tid, noWait: bool): Outcome {
    if m.owner == Some(t) then (if m.hold < HOLD_MAX then Taken else Full)
    else if m.value > 0 then Taken
    else if noWait then TimedOut else Waits
  }

  /** The owner runs at least as urgently as the thread about to wait. */
  function Boosted(threads: Threads, o: Tid, p: nat): Threads
    requires o in threads
  {
    if p < threads[o].prio then threads[o := threads[o].(prio := p)] else threads
  }

  function Take(id: Mid, m: Mutex, threads: Threads, t: Tid, noWait: bool): (Mutex, Threads)
    requires Sane(m, threads) && t in threads
  {
    match TakeResult(m, t, noWait)
    case Taken =>
      if m.owner == Some(t) then (m.(hold := m.hold + 1), threads)
      else (m.(value := m.value - 1, owner := Some(t), original := threads[t].prio, hold := m.hold + 1), threads)
    case Waits =>
      var boosted := Boosted(threads, m.owner.value, threads[t].prio);
      (m.(waiters := Enqueue(m.waiters, t, Prio, PrioOf(boosted))),
       boosted[t := boosted[t].(status := Blocked(id))])
    case _ => (m, threads)
  }

  function Release(m: Mutex, threads: Threads, t: Tid): (Mutex, Threads)
    requires Sane(m, threads)
  {
    if m.owner != Some(t) then (m, threads)
    else if m.hold > 1 then (m.(hold := m.hold - 1), threads)
    else
      var restored := threads[t := threads[t].(prio := m.original)];
      if m.waiters == [] then (Mutex(m.value + 1, None, 0, NO_PRIORITY, []), restored)
      else
        var head := m.waiters[0];
        (Mutex(m.value, Some(head), 1, restored[head].prio, m.waiters[1..]),
         restored[head := restored[head].(status := Resumed(EOK))])
  }

  function Timeout(m: Mutex, threads: Threads, t: Tid): (Mutex, Threads)
    requires t in threads
  {
    (m.(waiters := Without(m.waiters, t)), threads[t := threads[t].(status := Resumed(ETIMEOUT))])
  }

  // ------------------------------------------------------------- the invariant

  ghost predicate Owns(s: State, t: Tid, id: Mid) {
    id in s.mutexes && s.mutexes[id].owner == Some(t)
  }

  /** Ownership: free exactly when the value is 1 and nobody holds; otherwise held between
      1 and 255 times by one thread, which is not waiting for any mutex. */
  ghost predicate OwnerOk(s: State, id: Mid)
    requires id in s.mutexes
  {
    var m := s.mutexes[id];
    && Sane(m, s.threads)
    && (m.owner.None? ==> m.waiters == [] && m.original == NO_PRIORITY)
    && (m.owner.Some? ==> !s.threads[m.owner.value].status.Blocked? && m.original == s.threads[m.owner.value].base)
  }

  /** Waiters: exactly the threads blocked here, most urgent first. */
  ghost predicate WaitersSorted(s: State, id: Mid)
    requires id in s.mutexes
  {
    var l := s.mutexes[id].waiters;
    && Distinct(l)
    && (forall t :: t in l <==> t in s.threads && s.threads[t].status == Blocked(id))
    && SortedBy(l, PrioOf(s.threads))
  }

  /** Inheritance: the owner is at least as urgent as everyone waiting. */
  ghost predicate Inherits(s: State, id: Mid)
    requires id in s.mutexes
  {
    var m := s.mutexes[id];
    m.owner.Some? && m.owner.value in s.threads ==>
      forall t :: t in m.waiters && t in s.threads ==> s.threads[m.owner.value].prio <= s.threads[t].prio
  }

  ghost predicate OneEach(s: State) {
    forall a, b, t :: Owns(s, t, a) && Owns(s, t, b) ==> a == b
  }

  /** Only owners run above their own priority. */
  ghost predicate BaseOk(s: State) {
    forall t :: t in s.threads ==>
      && s.threads[t].prio <= s.threads[t].base
      && (s.threads[t].prio != s.threads[t].base ==> exists id :: Owns(s, t, id))
  }

  ghost predicate BlockedOk(s: State) {
    forall t :: t in s.threads && s.threads[t].status.Blocked? ==> s.threads[t].status.on in s.mutexes
  }

  ghost predicate Inv(s: State) {
    && (forall id :: id in s.mutexes ==> OwnerOk(s, id) && WaitersSorted(s, id) && Inherits(s, id))
    && OneEach(s) && BaseOk(s) && BlockedOk(s)
  }

  // ------------------------------------------------------------ transitions

  datatype Op =
    | TakeOp(t: Tid, id: Mid, noWait: bool)
    | ReleaseOp(t: Tid, id: Mid)
    | TimeoutOp(t: Tid)
    | ReturnOp(t: Tid)

  ghost predicate Enabled(s: State, op: Op) {
    && op.t in s.threads
    && match op
       case TakeOp(t, id, _) =>
         id in s.mutexes && s.threads[t].status == Active && forall other :: Owns(s, t, other) ==> other == id
       case ReleaseOp(t, id) => id in s.mutexes && s.threads[t].status == Active
       case TimeoutOp(t) => s.threads[t].status.Blocked?
       case ReturnOp(t) => s.threads[t].status.Resumed?
  }

  ghost function Put(s: State, id: Mid, r: (Mutex, Threads)): State {
    State(s.mutexes[id := r.0], r.1)
  }

  ghost function Step(s: State, op: Op): State
    requires Inv(s) && Enabled(s, op)
  {
    match op
    case TakeOp(t, id, noWait) => assert OwnerOk(s, id); Put(s, id, Take(id, s.mutexes[id], s.threads, t, noWait))
    case ReleaseOp(t, id) => assert OwnerOk(s, id); Put(s, id, Release(s.mutexes[id], s.threads, t))
    case TimeoutOp(t) =>
      var id := s.threads[t].status.on;
      Put(s, id, Timeout(s.mutexes[id], s.threads, t))
    case ReturnOp(t) => s.(threads := s.threads[t := s.threads[t].(status := Active)])
  }

  // -------------------------------------------------------------- invariance

  lemma SortedSame(l: seq<Tid>, p: Tid -> nat, q: Tid -> nat)
    requires SortedBy(l, p) && forall t :: t in l ==> p(t) == q(t)
    ensures SortedBy(l, q)
  {
    forall i, j | 0 <= i < j < |l| ensures q(l[i]) <= q(l[j]) {
      assert l[i] in l && l[j] in l;
    }
  }

  /** A mutex is untouched when the threads that changed neither wait for it, before or
      after, nor own it with another priority. */
  lemma KeepOther(s: State, s': State, id: Mid)
    requires id in s.mutexes && id in s'.mutexes && s'.mutexes[id] == s.mutexes[id]
    requires OwnerOk(s, id) && WaitersSorted(s, id) && Inherits(s, id)
    requires s'.threads.Keys == s.threads.Keys
    requires forall u :: u in s.threads && s'.threads[u] != s.threads[u] ==>
      && s.threads[u].status != Blocked(id) && s'.threads[u].status != Blocked(id)
      && (Owns(s, u, id) ==> (
            && !s'.threads[u].status.Blocked?
            && s'.threads[u].prio == s.threads[u].prio && s'.threads[u].base == s.threads[u].base))
    ensures OwnerOk(s', id) && WaitersSorted(s', id) && Inherits(s', id)
  {
    var m := s.mutexes[id];
    assert m.owner.Some? ==> Owns(s, m.owner.value, id);
    SortedSame(m.waiters, PrioOf(s.threads), PrioOf(s'.threads));
  }

  /** A thread that owns nothing runs at its own priority. */
  lemma AtBase(s: State, t: Tid)
    requires BaseOk(s) && t in s.threads && forall id :: !Owns(s, t, id)
    ensures s.threads[t].prio == s.threads[t].base
  {
  }

  lemma OwnersRun(s: State)
    requires Inv(s)
    ensures forall t, id :: Owns(s, t, id) ==> t in s.threads && !s.threads[t].status.Blocked?
  {
    forall t, id | Owns(s, t, id) ensures t in s.threads && !s.threads[t].status.Blocked? {
      assert OwnerOk(s, id);
    }
  }

  lemma WaiterOwnsNothing(s: State, t: Tid)
    requires Inv(s) && t in s.threads && s.threads[t].status.Blocked?
    ensures forall id :: !Owns(s, t, id)
    ensures s.threads[t].prio == s.threads[t].base
  {
    OwnersRun(s);
  }

  /** Taking a mutex that is free or already one's own. */
  ghost predicate TakenEffect(s: State, s': State, t: Tid, id: Mid) {
    && id in s.mutexes && s'.threads == s.threads && s'.mutexes.Keys == s.mutexes.Keys && t in s.threads
    && (forall k :: k in s.mutexes && k != id ==> s'.mutexes[k] == s.mutexes[k])
    && s'.mutexes[id].owner == Some(t)
    && (s.mutexes[id].owner == Some(t) || s.mutexes[id].owner == None)
  }

  lemma TakenOwners(s: State, s': State, t: Tid, id: Mid)
    requires Inv(s) && TakenEffect(s, s', t, id) && forall other :: Owns(s, t, other) ==> other == id
    ensures OneEach(s') && BaseOk(s') && BlockedOk(s')
  {
    hide WaitersSorted, OwnerOk;
    assert forall u, k :: Owns(s', u, k) <==> Owns(s, u, k) || (u == t && k == id);
  }

  lemma TakenElsewhere(s: State, s': State, t: Tid, id: Mid, other: Mid)
    requires Inv(s) && TakenEffect(s, s', t, id) && other in s.mutexes && other != id
    ensures OwnerOk(s', other) && WaitersSorted(s', other) && Inherits(s', other)
  {
    assert OwnerOk(s, other) && WaitersSorted(s, other) && Inherits(s, other);
    KeepOther(s, s', other);
  }

  lemma TakenHere(s: State, s': State, t: Tid, id: Mid)
    requires id in s.mutexes && OwnerOk(s, id) && WaitersSorted(s, id) && Inherits(s, id)
    requires t in s.threads && !s.threads[t].status.Blocked?
    requires !Owns(s, t, id) ==> s.threads[t].prio == s.threads[t].base
    requires TakeResult(s.mutexes[id], t, false) == Taken
    requires s' == Put(s, id, Take(id, s.mutexes[id], s.threads, t, false))
    ensures TakenEffect(s, s', t, id) && OwnerOk(s', id) && WaitersSorted(s', id) && Inherits(s', id)
  {
  }

  lemma TakenInv(s: State, t: Tid, id: Mid)
    requires Inv(s) && Enabled(s, TakeOp(t, id, false)) && TakeResult(s.mutexes[id], t, false) == Taken
    ensures OwnerOk(s, id) && Inv(Put(s, id, Take(id, s.mutexes[id], s.threads, t, false)))
  {
    assert OwnerOk(s, id) && WaitersSorted(s, id) && Inherits(s, id);
    var s' := Put(s, id, Take(id, s.mutexes[id], s.threads, t, false));
    if !Owns(s, t, id) { AtBase(s, t); }
    TakenHere(s, s', t, id);
    forall other | other in s.mutexes && other != id
      ensures OwnerOk(s', other) && WaitersSorted(s', other) && Inherits(s', other)
    {
      TakenElsewhere(s, s', t, id, other);
    }
    TakenOwners(s, s', t, id);
  }

  lemma WaitQueue(l: seq<Tid>, threads: Threads, o: Tid, t: Tid, id: Mid)
    requires o in threads && t in threads && o !in l && t !in l && Distinct(l)
    requires SortedBy(l, PrioOf(threads))
    ensures var boosted := Boosted(threads, o, threads[t].prio);
      var r := Enqueue(l, t, Prio, PrioOf(boosted));
      && Distinct(r) && (forall x :: x in r <==> x in l || x == t)
      && SortedBy(r, PrioOf(boosted[t := boosted[t].(status := Blocked(id))]))
  {
    var boosted := Boosted(threads, o, threads[t].prio);
    EnqueueMembers(l, t, Prio, PrioOf(boosted));
    SortedSame(l, PrioOf(threads), PrioOf(boosted));
    EnqueueStable(l, t, PrioOf(boosted));
    SortedSame(Enqueue(l, t, Prio, PrioOf(boosted)), PrioOf(boosted),
               PrioOf(boosted[t := boosted[t].(status := Blocked(id))]));
  }

  /** Where everyone stands after t blocked on the mutex o owns. */
  ghost predicate WaitThreads(s: State, s': State, t: Tid, o: Tid, id: Mid) {
    && o in s.threads && t in s.threads && o != t && s'.threads.Keys == s.threads.Keys
    && (forall u :: u in s.threads && u != o && u != t ==> s'.threads[u] == s.threads[u])
    && s'.threads[t] == s.threads[t].(status := Blocked(id))
    && s'.threads[o] == s.threads[o].(prio := if s.threads[t].prio < s.threads[o].prio then s.threads[t].prio
                                               else s.threads[o].prio)
  }

  ghost predicate WaitMutexes(s: State, s': State, t: Tid, id: Mid) {
    && id in s.mutexes && s'.mutexes.Keys == s.mutexes.Keys
    && (forall k :: k in s.mutexes && k != id ==> s'.mutexes[k] == s.mutexes[k])
    && s'.mutexes[id] == s.mutexes[id].(waiters := s'.mutexes[id].waiters)
    && Distinct(s'.mutexes[id].waiters)
    && (forall x :: x in s'.mutexes[id].waiters <==> x in s.mutexes[id].waiters || x == t)
    && SortedBy(s'.mutexes[id].waiters, PrioOf(s'.threads))
  }

  ghost predicate WaitEffect(s: State, s': State, t: Tid, o: Tid, id: Mid) {
    WaitThreads(s, s', t, o, id) && WaitMutexes(s, s', t, id)
  }

  ghost predicate CanWait(s: State, t: Tid, id: Mid) {
    && id in s.mutexes && OwnerOk(s, id) && WaitersSorted(s, id)
    && t in s.threads && s.threads[t].status == Active && TakeResult(s.mutexes[id], t, false) == Waits
  }

  lemma WaitThreadsEffect(s: State, t: Tid, id: Mid)
    requires CanWait(s, t, id)
    ensures WaitThreads(s, Put(s, id, Take(id, s.mutexes[id], s.threads, t, false)), t, s.mutexes[id].owner.value, id)
  {
  }

  lemma WaitMutexesEffect(s: State, t: Tid, id: Mid)
    requires CanWait(s, t, id)
    ensures WaitMutexes(s, Put(s, id, Take(id, s.mutexes[id], s.threads, t, false)), t, id)
  {
    hide PrioOf, Boosted, Enqueue;
    WaitQueue(s.mutexes[id].waiters, s.threads, s.mutexes[id].owner.value, t, id);
  }

  lemma WaitHasEffect(s: State, t: Tid, id: Mid)
    requires CanWait(s, t, id)
    ensures WaitEffect(s, Put(s, id, Take(id, s.mutexes[id], s.threads, t, false)), t, s.mutexes[id].owner.value, id)
  {
    WaitThreadsEffect(s, t, id);
    WaitMutexesEffect(s, t, id);
  }

  /** Blocking: the owner inherits the taker's priority and the taker queues. */
  lemma WaitHere(s: State, s': State, t: Tid, o: Tid, id: Mid)
    requires Inv(s) && WaitEffect(s, s', t, o, id) && s.threads[t].status == Active && s.mutexes[id].owner == Some(o)
    ensures OwnerOk(s', id) && WaitersSorted(s', id) && Inherits(s', id)
  {
    hide PrioOf, SortedBy, BlockedOk, Owns;
    assert OwnerOk(s, id) && WaitersSorted(s, id) && Inherits(s, id);
    assert forall x :: x in s.mutexes[id].waiters ==> x != o;
  }

  lemma WaitElsewhere(s: State, s': State, t: Tid, o: Tid, id: Mid, other: Mid)
    requires Inv(s) && WaitEffect(s, s', t, o, id) && s.threads[t].status == Active && s.mutexes[id].owner == Some(o)
    requires other in s.mutexes && other != id && !Owns(s, t, other)
    ensures OwnerOk(s', other) && WaitersSorted(s', other) && Inherits(s', other)
  {
    hide PrioOf, WaitersSorted, SortedBy, BlockedOk, BaseOk, Distinct, Inherits;
    assert OwnerOk(s, other) && WaitersSorted(s, other) && Inherits(s, other) && OwnerOk(s, id);
    assert Owns(s, o, id);
    KeepOther(s, s', other);
  }

  lemma WaitOwners(s: State, s': State, t: Tid, o: Tid, id: Mid)
    requires WaitEffect(s, s', t, o, id) && OneEach(s) && BlockedOk(s)
    ensures forall u, k :: Owns(s', u, k) <==> Owns(s, u, k)
    ensures OneEach(s') && BlockedOk(s')
  {
    assert forall u, k :: Owns(s', u, k) <==> Owns(s, u, k);
  }

  lemma WaitBase(s: State, s': State, t: Tid, o: Tid, id: Mid)
    requires WaitThreads(s, s', t, o, id) && BaseOk(s) && Owns(s, o, id)
    requires forall u, k :: Owns(s', u, k) <==> Owns(s, u, k)
    ensures BaseOk(s')
  {
    assert Owns(s', o, id);
  }

  lemma WaitInv(s: State, t: Tid, id: Mid)
    requires Inv(s) && Enabled(s, TakeOp(t, id, false)) && TakeResult(s.mutexes[id], t, false) == Waits
    ensures OwnerOk(s, id) && Inv(Put(s, id, Take(id, s.mutexes[id], s.threads, t, false)))
  {
    assert OwnerOk(s, id) && WaitersSorted(s, id);
    WaitHasEffect(s, t, id);
    var o := s.mutexes[id].owner.value;
    var s' := Put(s, id, Take(id, s.mutexes[id], s.threads, t, false));
    WaitHere(s, s', t, o, id);
    forall other | other in s.mutexes && other != id
      ensures OwnerOk(s', other) && WaitersSorted(s', other) && Inherits(s', other)
    {
      WaitElsewhere(s, s', t, o, id, other);
    }
    WaitOwners(s, s', t, o, id);
    WaitBase(s, s', t, o, id);
  }

  /** Taking, free or recursively or by waiting, keeps owners, waiters and priorities in order. */
  lemma TakeInv(s: State, t: Tid, id: Mid, noWait: bool)
    requires Inv(s) && Enabled(s, TakeOp(t, id, noWait))
    ensures OwnerOk(s, id) && Inv(Put(s, id, Take(id, s.mutexes[id], s.threads, t, noWait)))
  {
    assert OwnerOk(s, id);
    match TakeResult(s.mutexes[id], t, noWait)
    case Taken => TakenInv(s, t, id);
    case Waits => WaitInv(s, t, id);
    case _ => assert s.mutexes[id := s.mutexes[id]] == s.mutexes;
  }

  lemma UnholdHere(s: State, t: Tid, id: Mid)
    requires id in s.mutexes && OwnerOk(s, id) && WaitersSorted(s, id) && Inherits(s, id)
    requires Owns(s, t, id) && s.mutexes[id].hold > 1
    ensures var s' := Put(s, id, Release(s.mutexes[id], s.threads, t));
      TakenEffect(s, s', t, id) && OwnerOk(s', id) && WaitersSorted(s', id) && Inherits(s', id)
  {
    hide SortedBy, Distinct;
  }

  /** Giving up one of several holds. */
  lemma UnholdInv(s: State, t: Tid, id: Mid)
    requires Inv(s) && Enabled(s, ReleaseOp(t, id)) && Owns(s, t, id) && s.mutexes[id].hold > 1
    ensures OwnerOk(s, id) && Inv(Put(s, id, Release(s.mutexes[id], s.threads, t)))
  {
    hide WaitersSorted, Inherits, BaseOk, BlockedOk, SortedBy, PrioOf, Distinct, Release;
    assert OwnerOk(s, id) && WaitersSorted(s, id) && Inherits(s, id);
    var s' := Put(s, id, Release(s.mutexes[id], s.threads, t));
    UnholdHere(s, t, id);
    forall other | other in s.mutexes && other != id
      ensures OwnerOk(s', other) && WaitersSorted(s', other) && Inherits(s', other)
    {
      TakenElsewhere(s, s', t, id, other);
    }
    TakenOwners(s, s', t, id);
  }

  /** Where everyone stands after the last release: the old owner is back at its own
      priority, and the first waiter, if any, owns the mutex. */
  ghost predicate HandThreads(s: State, s': State, t: Tid, id: Mid) {
    && id in s.mutexes && t in s.threads && s'.threads.Keys == s.threads.Keys
    && s'.threads[t] == s.threads[t].(prio := s.threads[t].base)
    && var l := s.mutexes[id].waiters;
    && (l != [] ==> l[0] in s.threads && l[0] != t && s'.threads[l[0]] == s.threads[l[0]].(status := Resumed(EOK)))
    && (forall u :: u in s.threads && u != t && !(l != [] && u == l[0]) ==> s'.threads[u] == s.threads[u])
  }

  ghost predicate HandMutexes(s: State, s': State, t: Tid, id: Mid) {
    && id in s.mutexes && s'.mutexes.Keys == s.mutexes.Keys
    && (forall k :: k in s.mutexes && k != id ==> s'.mutexes[k] == s.mutexes[k])
    && var l := s.mutexes[id].waiters;
    && (l != [] ==> l[0] in s.threads)
    && s'.mutexes[id] == if l == [] then Mutex(1, None, 0, NO_PRIORITY, [])
                         else Mutex(0, Some(l[0]), 1, s.threads[l[0]].prio, l[1..])
  }

  lemma HandHasEffect(s: State, t: Tid, id: Mid)
    requires id in s.mutexes && OwnerOk(s, id) && WaitersSorted(s, id) && Owns(s, t, id) && s.mutexes[id].hold == 1
    ensures var s' := Put(s, id, Release(s.mutexes[id], s.threads, t));
      HandThreads(s, s', t, id) && HandMutexes(s, s', t, id)
  {
    var l := s.mutexes[id].waiters;
    if l != [] { assert l[0] in l; }
  }

  lemma HandHere(s: State, s': State, t: Tid, id: Mid)
    requires id in s.mutexes && OwnerOk(s, id) && WaitersSorted(s, id) && Owns(s, t, id)
    requires HandThreads(s, s', t, id) && HandMutexes(s, s', t, id)
    requires forall u :: u in s.mutexes[id].waiters ==> u in s.threads && s.threads[u].prio == s.threads[u].base
    ensures OwnerOk(s', id) && WaitersSorted(s', id) && Inherits(s', id)
  {
    hide Distinct, SortedBy, PrioOf;
    var l := s.mutexes[id].waiters;
    if l != [] {
      TailMembers(l);
      assert l[0] in l && t !in l;
      HandOrder(l, s.threads, s'.threads);
    } else {
      NobodySorted(PrioOf(s'.threads));
    }
  }

  lemma NobodySorted(p: Tid -> nat)
    ensures Distinct([]) && SortedBy([], p)
  {
  }

  lemma HandOrder(l: seq<Tid>, threads: Threads, threads': Threads)
    requires SortedBy(l, PrioOf(threads)) && l != []
    requires forall u :: u in l ==> u in threads && u in threads' && threads'[u].prio == threads[u].prio
    ensures SortedBy(l[1..], PrioOf(threads')) && forall u :: u in l[1..] ==> threads[l[0]].prio <= threads[u].prio
  {
    hide SortedBy;
    SortedTail(l, PrioOf(threads));
    assert forall u :: u in l[1..] ==> u in l;
    assert forall u :: u in l[1..] ==> PrioOf(threads)(l[0]) <= PrioOf(threads)(u);
    SortedSame(l[1..], PrioOf(threads), PrioOf(threads'));
  }

  lemma SortedTail(l: seq<Tid>, p: Tid -> nat)
    requires SortedBy(l, p) && l != []
    ensures SortedBy(l[1..], p) && forall t :: t in l[1..] ==> p(l[0]) <= p(t)
  {
    forall t | t in l[1..] ensures p(l[0]) <= p(t) {
      var i :| 0 <= i < |l[1..]| && l[1..][i] == t;
      assert l[i + 1] == t;
    }
  }

  lemma HandElsewhere(s: State, s': State, t: Tid, id: Mid, other: Mid)
    requires Inv(s) && Owns(s, t, id) && HandThreads(s, s', t, id) && HandMutexes(s, s', t, id)
    requires other in s.mutexes && other != id
    ensures OwnerOk(s', other) && WaitersSorted(s', other) && Inherits(s', other)
  {
    assert OwnerOk(s, other) && WaitersSorted(s, other) && Inherits(s, other) && OwnerOk(s, id) && WaitersSorted(s, id);
    var l := s.mutexes[id].waiters;
    OwnersRun(s);
    if l != [] { assert l[0] in l; }
    KeepOther(s, s', other);
  }

  /** Who owns what after the last release. */
  ghost predicate Handed(s: State, s': State, id: Mid)
    requires id in s.mutexes
  {
    var l := s.mutexes[id].waiters;
    forall u, k :: Owns(s', u, k) <==> (k != id && Owns(s, u, k)) || (k == id && l != [] && u == l[0])
  }

  lemma HandOwns(s: State, s': State, t: Tid, id: Mid)
    requires HandMutexes(s, s', t, id)
    ensures Handed(s, s', id)
  {
  }

  lemma HandOneEach(s: State, s': State, id: Mid)
    requires id in s.mutexes && Handed(s, s', id) && OneEach(s)
    requires s.mutexes[id].waiters != [] ==> forall k :: !Owns(s, s.mutexes[id].waiters[0], k)
    ensures OneEach(s')
  {
    hide Owns;
  }

  lemma HandBase(s: State, s': State, t: Tid, id: Mid)
    requires HandThreads(s, s', t, id) && Handed(s, s', id) && OneEach(s) && BaseOk(s) && Owns(s, t, id)
    ensures BaseOk(s')
  {
    forall u | u in s'.threads
      ensures s'.threads[u].prio <= s'.threads[u].base
      ensures s'.threads[u].prio != s'.threads[u].base ==> exists k :: Owns(s', u, k)
    {
      assert s.threads[u].prio <= s.threads[u].base;
      if u != t && s.threads[u].prio != s.threads[u].base {
        var k :| Owns(s, u, k);
        assert Owns(s', u, k);
      }
    }
  }

  lemma HandOwners(s: State, s': State, t: Tid, id: Mid)
    requires Inv(s) && Owns(s, t, id) && HandThreads(s, s', t, id) && HandMutexes(s, s', t, id)
    ensures OneEach(s') && BaseOk(s') && BlockedOk(s')
  {
    hide OneEach, BaseOk, Handed, SortedBy, PrioOf;
    assert OwnerOk(s, id) && WaitersSorted(s, id);
    var l := s.mutexes[id].waiters;
    if l != [] {
      assert l[0] in l;
      WaiterOwnsNothing(s, l[0]);
    }
    HandOwns(s, s', t, id);
    HandOneEach(s, s', id);
    HandBase(s, s', t, id);
  }

  lemma HandInv(s: State, t: Tid, id: Mid)
    requires Inv(s) && Enabled(s, ReleaseOp(t, id)) && Owns(s, t, id) && s.mutexes[id].hold == 1
    ensures OwnerOk(s, id) && Inv(Put(s, id, Release(s.mutexes[id], s.threads, t)))
  {
    assert OwnerOk(s, id) && WaitersSorted(s, id) && Inherits(s, id);
    var s' := Put(s, id, Release(s.mutexes[id], s.threads, t));
    HandHasEffect(s, t, id);
    forall u | u in s.mutexes[id].waiters ensures s.threads[u].prio == s.threads[u].base {
      WaiterOwnsNothing(s, u);
    }
    HandHere(s, s', t, id);
    forall other | other in s.mutexes && other != id
      ensures OwnerOk(s', other) && WaitersSorted(s', other) && Inherits(s', other)
    {
      HandElsewhere(s, s', t, id, other);
    }
    HandOwners(s, s', t, id);
  }

  /** Releasing, once of several times or for good, keeps them in order. */
  lemma ReleaseInv(s: State, t: Tid, id: Mid)
    requires Inv(s) && Enabled(s, ReleaseOp(t, id))
    ensures OwnerOk(s, id) && Inv(Put(s, id, Release(s.mutexes[id], s.threads, t)))
  {
    assert OwnerOk(s, id);
    if !Owns(s, t, id) {
      assert s.mutexes[id := s.mutexes[id]] == s.mutexes;
    } else if s.mutexes[id].hold > 1 {
      UnholdInv(s, t, id);
    } else {
      HandInv(s, t, id);
    }
  }

  lemma TimeoutHere(s: State, t: Tid)
    requires Inv(s) && Enabled(s, TimeoutOp(t))
    ensures var s' := Step(s, TimeoutOp(t)); var id := s.threads[t].status.on;
      OwnerOk(s', id) && WaitersSorted(s', id) && Inherits(s', id)
  {
    hide SortedBy, Take, Distinct, Place, BaseOk;
    var id := s.threads[t].status.on;
    var s' := Step(s, TimeoutOp(t));
    assert OwnerOk(s, id) && WaitersSorted(s, id) && Inherits(s, id);
    WithoutMembers(s.mutexes[id].waiters, t);
    WithoutSorted(s.mutexes[id].waiters, t, PrioOf(s.threads));
    SortedSame(s'.mutexes[id].waiters, PrioOf(s.threads), PrioOf(s'.threads));
  }

  /** Steps that change one thread's status, and no owner. */
  lemma StatusElsewhere(s: State, s': State, t: Tid, st: Status, id: Mid)
    requires Inv(s) && id in s.mutexes && id in s'.mutexes && s'.mutexes[id] == s.mutexes[id] && t in s.threads
    requires s.threads[t].status != Blocked(id) && !st.Blocked?
    requires s'.threads == s.threads[t := s.threads[t].(status := st)]
    ensures OwnerOk(s', id) && WaitersSorted(s', id) && Inherits(s', id)
  {
    assert OwnerOk(s, id) && WaitersSorted(s, id) && Inherits(s, id);
    KeepOther(s, s', id);
  }

  lemma StatusOwners(s: State, s': State, t: Tid, st: Status)
    requires OneEach(s) && BaseOk(s) && BlockedOk(s) && t in s.threads && s'.mutexes.Keys == s.mutexes.Keys
    requires forall id :: id in s.mutexes ==> s'.mutexes[id].owner == s.mutexes[id].owner
    requires s'.threads == s.threads[t := s.threads[t].(status := st)] && !st.Blocked?
    ensures OneEach(s') && BaseOk(s') && BlockedOk(s')
  {
    assert forall u, k :: Owns(s', u, k) <==> Owns(s, u, k);
  }

  lemma TimeoutInv(s: State, t: Tid)
    requires Inv(s) && Enabled(s, TimeoutOp(t))
    ensures Inv(Step(s, TimeoutOp(t)))
  {
    hide WaitersSorted, PrioOf, Place, Sane, SortedBy, Owns;
    var id := s.threads[t].status.on;
    var s' := Step(s, TimeoutOp(t));
    TimeoutHere(s, t);
    forall other | other in s.mutexes && other != id
      ensures OwnerOk(s', other) && WaitersSorted(s', other) && Inherits(s', other)
    {
      StatusElsewhere(s, s', t, Resumed(ETIMEOUT), other);
    }
    StatusOwners(s, s', t, Resumed(ETIMEOUT));
  }

  lemma ReturnInv(s: State, t: Tid)
    requires Inv(s) && Enabled(s, ReturnOp(t))
    ensures Inv(Step(s, ReturnOp(t)))
  {
    var s' := Step(s, ReturnOp(t));
    forall other | other in s.mutexes
      ensures OwnerOk(s', other) && WaitersSorted(s', other) && Inherits(s', other)
    {
      StatusElsewhere(s, s', t, Active, other);
    }
    StatusOwners(s, s', t, Active);
  }

  /** Every step of every thread keeps the invariant. */
  lemma StepInv(s: State, op: Op)
    requires Inv(s) && Enabled(s, op)
    ensures Inv(Step(s, op))
  {
    match op
    case TakeOp(t, id, noWait) => TakeInv(s, t, id, noWait);
    case ReleaseOp(t, id) => ReleaseInv(s, t, id);
    case TimeoutOp(t) => TimeoutInv(s, t);
    case ReturnOp(t) => ReturnInv(s, t);
  }

  // --------------------------------------------------------------- whole runs

  ghost function Run(s: State, ops: seq<Op>): State
    requires Inv(s)
    decreases |ops|
  {
    if ops == [] then s
    else if Enabled(s, ops[0]) then
      StepInv(s, ops[0]);
      Run(Step(s, ops[0]), ops[1..])
    else Run(s, ops[1..])
  }

  /** And so does every interleaving. */
  lemma {:induction false} RunInv(s: State, ops: seq<Op>)
    requires Inv(s)
    ensures Inv(Run(s, ops))
    decreases |ops|
  {
    if ops != [] {
      if Enabled(s, ops[0]) {
        StepInv(s, ops[0]);
        RunInv(Step(s, ops[0]), ops[1..]);
      } else {
        RunInv(s, ops[1..]);
      }
    }
  }

  /** Every mutex just initialised, every thread at its own priority. */
  ghost predicate Initial(s: State) {
    && (forall id :: id in s.mutexes ==> s.mutexes[id] == Mutex(1, None, 0, NO_PRIORITY, []))
    && (forall t :: t in s.threads ==> s.threads[t].prio == s.threads[t].base && s.threads[t].status == Active)
  }

  lemma InitialInv(s: State)
    requires Initial(s)
    ensures Inv(s)
  {
  }

  /** In every reachable state a mutex is ownerless exactly when its value is 1 and its
      hold count 0; an owned one has value 0 and between 1 and 255 holds; no thread owns
      two; and a thread that owns nothing runs at its own priority. */
  lemma OwnershipEver(s0: State, ops: seq<Op>, id: Mid)
    requires Initial(s0)
    ensures Inv(s0)
    ensures var s := Run(s0, ops);
      id in s.mutexes ==>
        var m := s.mutexes[id];
        && (m.owner == None <==> m.value == 1 && m.hold == 0)
        && (m.owner != None ==> m.value == 0 && 1 <= m.hold <= HOLD_MAX)
    ensures var s := Run(s0, ops);
      && (forall a, b, t :: Owns(s, t, a) && Owns(s, t, b) ==> a == b)
      && (forall t :: t in s.threads && (forall k :: !Owns(s, t, k)) ==> s.threads[t].prio == s.threads[t].base)
  {
    hide WaitersSorted, PrioOf, Enqueue, BlockedOk, Owns, Run;
    InitialInv(s0);
    RunInv(s0, ops);
    var s := Run(s0, ops);
    if id in s.mutexes { assert OwnerOk(s, id); }
  }

  /** In every reachable state the owner of a mutex is at least as urgent as each of its
      waiters, and the waiters stand in order of urgency. */
  lemma UrgencyEver(s0: State, ops: seq<Op>, id: Mid)
    requires Initial(s0)
    ensures Inv(s0)
    ensures var s := Run(s0, ops);
      id in s.mutexes && s.mutexes[id].waiters != [] ==>
        var m := s.mutexes[id];
        && m.owner != None && m.owner.value in s.threads
        && (forall t :: t in m.waiters ==> t in s.threads && s.threads[m.owner.value].prio <= s.threads[t].prio)
        && (forall i, j :: 0 <= i < j < |m.waiters| ==> s.threads[m.waiters[i]].prio <= s.threads[m.waiters[j]].prio)
  {
    InitialInv(s0);
    RunInv(s0, ops);
    var s := Run(s0, ops);
    if id in s.mutexes {
      assert OwnerOk(s, id) && WaitersSorted(s, id) && Inherits(s, id);
      SortedPrio(s.mutexes[id].waiters, s.threads);
    }
  }

  lemma SortedPrio(l: seq<Tid>, threads: Threads)
    requires SortedBy(l, PrioOf(threads)) && forall t :: t in l ==> t in threads
    ensures forall i, j :: 0 <= i < j < |l| ==> threads[l[i]].prio <= threads[l[j]].prio
  {
    forall i, j | 0 <= i < j < |l| ensures threads[l[i]].prio <= threads[l[j]].prio {
      assert l[i] in l && l[j] in l && PrioOf(threads)(l[i]) <= PrioOf(threads)(l[j]);
    }
  }

  // -------------------------------------------------- what each call is for

  /** The last release puts the owner back at its own priority and hands the mutex to the
      first waiter, which no other waiter outranks; without waiters the mutex is free. */
  lemma FinalRelease(s: State, t: Tid, id: Mid)
    requires Inv(s) && Enabled(s, ReleaseOp(t, id)) && Owns(s, t, id) && s.mutexes[id].hold == 1
    ensures var s' := Step(s, ReleaseOp(t, id)); var l := s.mutexes[id].waiters;
      && Inv(s') && t in s'.threads && s'.threads[t].prio == s.threads[t].base
      && (l == [] ==> s'.mutexes[id] == Mutex(1, None, 0, NO_PRIORITY, []))
      && (l != [] ==>
            && Owns(s', l[0], id) && s'.mutexes[id].hold == 1 && s'.mutexes[id].waiters == l[1..]
            && l[0] in s'.threads && s'.threads[l[0]].status == Resumed(EOK)
            && forall u :: u in l ==> u in s'.threads && s'.threads[l[0]].prio <= s'.threads[u].prio)
  {
    hide Inherits;
    StepInv(s, ReleaseOp(t, id));
    assert OwnerOk(s, id) && WaitersSorted(s, id);
    HandHasEffect(s, t, id);
    var l := s.mutexes[id].waiters;
    if l != [] {
      assert l[0] in l;
      SortedTail(l, PrioOf(s.threads));
      forall u | u in l ensures s.threads[l[0]].prio <= s.threads[u].prio {
        if u != l[0] { TailMembers(l); assert u in l[1..]; }
      }
    }
  }

  /** When a take succeeds, is refused or has to wait. */
  lemma TakeAnswers(m: Mutex, threads: Threads, t: Tid, noWait: bool)
    requires Sane(m, threads)
    ensures var r := TakeResult(m, t, noWait);
      && (r == Taken <==> m.owner == None || (m.owner == Some(t) && m.hold < HOLD_MAX))
      && (r == Full <==> m.owner == Some(t) && m.hold == HOLD_MAX)
      && (r == TimedOut <==> m.owner != None && m.owner != Some(t) && noWait)
      && (r == Waits <==> m.owner != None && m.owner != Some(t) && !noWait)
  {
  }

  /** A take that need not wait gives the mutex to the caller, or takes it once more; one that
      is refused changes nothing; one that waits leaves the mutex to its owner. */
  lemma TakeExactly(s: State, t: Tid, id: Mid, noWait: bool)
    requires Inv(s) && Enabled(s, TakeOp(t, id, noWait))
    ensures var s', m := Step(s, TakeOp(t, id, noWait)), s.mutexes[id]; var r := TakeResult(m, t, noWait);
      && t in s'.threads && s'.threads.Keys == s.threads.Keys && s'.mutexes.Keys == s.mutexes.Keys
      && (r == Taken <==> s'.mutexes[id].owner == Some(t) && s'.mutexes[id].hold == m.hold + 1)
      && (r == Taken ==> s'.mutexes[id].waiters == m.waiters && s'.threads == s.threads)
      && (r == Waits <==> s'.threads[t].status == Blocked(id))
      && (r == Waits ==> s'.mutexes[id].owner == m.owner && s'.mutexes[id].hold == m.hold)
      && (r == Full || r == TimedOut ==> s'.mutexes[id] == m && s'.threads == s.threads)
      && (forall k :: k in s.mutexes && k != id ==> s'.mutexes[k] == s.mutexes[k])
  {
    hide SortedBy, PrioOf, Inherits, BaseOk, OneEach, Enqueue, WaitersSorted, Distinct;
    assert OwnerOk(s, id);
  }

  /** One that waits joins the waiters behind everyone at least as urgent and in front of the
      next. */
  lemma TakeJoins(s: State, t: Tid, id: Mid) returns (i: nat)
    requires Inv(s) && Enabled(s, TakeOp(t, id, false)) && TakeResult(s.mutexes[id], t, false) == Waits
    ensures var s', l := Step(s, TakeOp(t, id, false)), s.mutexes[id].waiters;
      && id in s'.mutexes && t in s'.threads && i <= |l| && s'.mutexes[id].waiters == l[..i] + ([t] + l[i..])
      && (forall j :: 0 <= j < i ==> l[j] in s'.threads && s'.threads[l[j]].prio <= s'.threads[t].prio)
      && (i < |l| ==> l[i] in s'.threads && s'.threads[t].prio < s'.threads[l[i]].prio)
  {
    hide Inv, Step, Enqueue, PrioOf, Boosted, TakeResult;
    var l := s.mutexes[id].waiters;
    var boosted := WaitQueued(s, t, id);
    EnqueueJoins(l, t, Prio, PrioOf(boosted));
    var l' := Enqueue(l, t, Prio, PrioOf(boosted));
    i :| 0 <= i <= |l| && l' == l[..i] + ([t] + l[i..]) && Between(l, i, PrioOf(boosted)(t), PrioOf(boosted));
    assert forall j :: 0 <= j < |l| ==> l[j] in l;
  }

  lemma WaitQueued(s: State, t: Tid, id: Mid) returns (boosted: Threads)
    requires Inv(s) && Enabled(s, TakeOp(t, id, false)) && TakeResult(s.mutexes[id], t, false) == Waits
    ensures var s', l := Step(s, TakeOp(t, id, false)), s.mutexes[id].waiters;
      && id in s'.mutexes && s'.mutexes[id].waiters == Enqueue(l, t, Prio, PrioOf(boosted))
      && (forall u :: u in l || u == t ==> u in s'.threads && s'.threads[u].prio == PrioOf(boosted)(u))
  {
    hide Inherits, BaseOk, OneEach, Enqueue, WaitersSorted, SortedBy, Distinct;
    assert OwnerOk(s, id);
    boosted := Boosted(s.threads, s.mutexes[id].owner.value, s.threads[t].prio);
  }

  /** Nobody else changes but an owner less urgent than a caller that waits, and only in
      priority. */
  lemma TakeOthers(s: State, t: Tid, id: Mid, noWait: bool)
    requires Inv(s) && Enabled(s, TakeOp(t, id, noWait))
    ensures var s', m := Step(s, TakeOp(t, id, noWait)), s.mutexes[id];
      && s'.threads.Keys == s.threads.Keys && s'.threads[t].prio == s.threads[t].prio
      && (forall u :: u in s.threads && u != t && m.owner != Some(u) ==> s'.threads[u] == s.threads[u])
      && (forall u :: u in s.threads && m.owner == Some(u) && u != t ==>
            s'.threads[u] == s.threads[u].(prio := s'.threads[u].prio))
  {
    hide SortedBy, PrioOf, Inherits, BaseOk, OneEach, Enqueue, WaitersSorted, Distinct;
    assert OwnerOk(s, id);
  }

  /** A release by anyone but the owner changes nothing; one of several holds is given up
      alone; and the last release changes, besides this mutex, only the owner's priority and
      the status of the first waiter. */
  lemma ReleaseExactly(s: State, t: Tid, id: Mid)
    requires Inv(s) && Enabled(s, ReleaseOp(t, id))
    ensures var s', m := Step(s, ReleaseOp(t, id)), s.mutexes[id];
      && (!Owns(s, t, id) ==> s' == s)
      && (Owns(s, t, id) && m.hold != 1 ==>
            s'.threads == s.threads && s'.mutexes == s.mutexes[id := m.(hold := m.hold - 1)])
      && s'.threads.Keys == s.threads.Keys && s'.mutexes.Keys == s.mutexes.Keys
      && (forall k :: k in s.mutexes && k != id ==> s'.mutexes[k] == s.mutexes[k])
      && (forall u :: u in s.threads && u != t && (m.waiters == [] || u != m.waiters[0]) ==>
            s'.threads[u] == s.threads[u])
      && s'.threads[t].status == s.threads[t].status
      && (m.waiters != [] && Owns(s, t, id) && m.hold == 1 ==>
            var u := m.waiters[0];
            u in s.threads && s.threads[u].status == Blocked(id)
              && s'.threads[u] == s.threads[u].(status := Resumed(EOK)))
  {
    hide SortedBy, PrioOf, Inherits, BaseOk, OneEach;
    assert OwnerOk(s, id) && WaitersSorted(s, id);
    assert s.mutexes[id := s.mutexes[id]] == s.mutexes;
    if s.mutexes[id].waiters != [] { assert s.mutexes[id].waiters[0] in s.mutexes[id].waiters; }
  }

  /** A waiter whose time is up carries the error and waits no more; nobody else changes, and
      no owner. */
  lemma TimeoutExactly(s: State, t: Tid)
    requires Inv(s) && Enabled(s, TimeoutOp(t))
    ensures var s', id := Step(s, TimeoutOp(t)), s.threads[t].status.on;
      && t in s'.threads && s'.threads == s.threads[t := s.threads[t].(status := Resumed(ETIMEOUT))]
      && id in s'.mutexes && s'.mutexes.Keys == s.mutexes.Keys
      && t !in s'.mutexes[id].waiters
      && (exists i :: 0 <= i < |s.mutexes[id].waiters| && s.mutexes[id].waiters[i] == t
            && s'.mutexes[id].waiters == s.mutexes[id].waiters[..i] + s.mutexes[id].waiters[i + 1..])
      && s'.mutexes[id] == s.mutexes[id].(waiters := s'.mutexes[id].waiters)
      && (forall k :: k in s.mutexes && k != id ==> s'.mutexes[k] == s.mutexes[k])
      && (forall u, k :: Owns(s', u, k) <==> Owns(s, u, k))
  {
    hide SortedBy, PrioOf, Inherits, BaseOk, OneEach;
    assert WaitersSorted(s, s.threads[t].status.on);
    WithoutMembers(s.mutexes[s.threads[t].status.on].waiters, t);
    var l := s.mutexes[s.threads[t].status.on].waiters;
    var i :| 0 <= i < |l| && l[i] == t;
    WithoutIndex(l, i);
  }

  // ------------------------------------------------------- what a wait ends in

  /** The mutex t waits for, or waited for last: w, unless it is waiting now. */
  ghost function Awaited(s: State, t: Tid, w: Option<Mid>): Option<Mid> {
    if t in s.threads && s.threads[t].status.Blocked? then Some(s.threads[t].status.on) else w
  }

  /** The same over a run. */
  ghost function AwaitedLast(s: State, ops: seq<Op>, t: Tid, w: Option<Mid>): Option<Mid>
    requires Inv(s)
    decreases |ops|
  {
    if ops == [] then Awaited(s, t, w)
    else if Enabled(s, ops[0]) then
      StepInv(s, ops[0]);
      AwaitedLast(Step(s, ops[0]), ops[1..], t, Awaited(s, t, w))
    else AwaitedLast(s, ops[1..], t, w)
  }

  /** What the status of t says is so: it waits for w; or, resumed without an error, owns it;
      or, resumed with one, timed out and owns nothing. */
  ghost predicate Truthful(s: State, t: Tid, w: Option<Mid>) {
    t in s.threads ==>
      match s.threads[t].status
      case Active => true
      case Blocked(id) => w == Some(id)
      case Resumed(e) =>
        if e == EOK then w.Some? && Owns(s, t, w.value) else e == ETIMEOUT && forall id :: !Owns(s, t, id)
  }

  lemma StepTruthful(s: State, op: Op, t: Tid, w: Option<Mid>)
    requires Inv(s) && Enabled(s, op) && Truthful(s, t, Awaited(s, t, w))
    ensures Inv(Step(s, op))
    ensures Truthful(Step(s, op), t, Awaited(Step(s, op), t, Awaited(s, t, w)))
  {
    hide SortedBy, PrioOf, Inherits, BaseOk, WaitersSorted, OwnerOk, Step, OneEach;
    StepInv(s, op);
    match op
    case TakeOp(u, id, noWait) => TakeExactly(s, u, id, noWait); TakeOthers(s, u, id, noWait); TakeOwners(s, u, id,
        noWait);
    case ReleaseOp(u, id) => ReleaseExactly(s, u, id); ReleaseOwners(s, u, id);
    case TimeoutOp(u) => TimeoutExactly(s, u); WaiterOwnsNothing(s, u);
    case ReturnOp(u) => ReturnExactly(s, u);
  }

  lemma ReturnExactly(s: State, t: Tid)
    requires Inv(s) && Enabled(s, ReturnOp(t))
    ensures Step(s, ReturnOp(t)) == s.(threads := s.threads[t := s.threads[t].(status := Active)])
    ensures forall u, k :: Owns(Step(s, ReturnOp(t)), u, k) <==> Owns(s, u, k)
  {
  }

  /** A take makes nobody an owner but the caller. */
  lemma TakeOwners(s: State, t: Tid, id: Mid, noWait: bool)
    requires Inv(s) && Enabled(s, TakeOp(t, id, noWait))
    ensures forall u, k :: u != t ==> (Owns(Step(s, TakeOp(t, id, noWait)), u, k) <==> Owns(s, u, k))
  {
    hide SortedBy, PrioOf, Inherits, BaseOk, WaitersSorted, OneEach;
    assert OwnerOk(s, id);
  }

  /** A release makes nobody an owner but the first waiter, and the caller no longer one. */
  lemma ReleaseOwners(s: State, t: Tid, id: Mid)
    requires Inv(s) && Enabled(s, ReleaseOp(t, id))
    ensures var s', l := Step(s, ReleaseOp(t, id)), s.mutexes[id].waiters;
      && (forall u, k :: u != t && (l == [] || u != l[0]) ==> (Owns(s', u, k) <==> Owns(s, u, k)))
      && (l != [] && Owns(s, t, id) && s.mutexes[id].hold == 1 ==> Owns(s', l[0], id))
      && (!(Owns(s, t, id) && s.mutexes[id].hold == 1) ==> forall u, k :: Owns(s', u, k) <==> Owns(s, u, k))
  {
    hide SortedBy, PrioOf, Inherits, BaseOk, WaitersSorted, OneEach;
    assert OwnerOk(s, id);
    assert s.mutexes[id := s.mutexes[id]] == s.mutexes;
  }

  lemma {:induction false} RunTruthful(s: State, ops: seq<Op>, t: Tid, w: Option<Mid>)
    requires Inv(s) && Truthful(s, t, Awaited(s, t, w))
    ensures Inv(Run(s, ops)) && Truthful(Run(s, ops), t, AwaitedLast(s, ops, t, w))
    decreases |ops|
  {
    hide Inv, Truthful, Awaited, Step;
    if ops != [] {
      if Enabled(s, ops[0]) {
        StepTruthful(s, ops[0], t, w);
        RunTruthful(Step(s, ops[0]), ops[1..], t, Awaited(s, t, w));
      } else {
        RunTruthful(s, ops[1..], t, w);
      }
    }
  }

  /** In every reachable state a thread whose take is about to return success after a wait
      owns the mutex it waited for, and one whose take is about to return an error timed out
      and owns none. */
  lemma AnswersTrueEver(s0: State, ops: seq<Op>, t: Tid)
    requires Initial(s0)
    ensures Inv(s0)
    ensures var s, w := Run(s0, ops), AwaitedLast(s0, ops, t, None);
      t in s.threads && s.threads[t].status.Resumed? ==>
        var e := s.threads[t].status.error;
        && (e == EOK ==> w.Some? && Owns(s, t, w.value))
        && (e != EOK ==> e == ETIMEOUT && forall id :: !Owns(s, t, id))
  {
    InitialInv(s0);
    RunTruthful(s0, ops, t, None);
  }

  lemma TakeRelease(id: Mid, m: Mutex, threads: Threads, t: Tid)
    requires Sane(m, threads) && t in threads && TakeResult(m, t, true) == Taken
    requires m.owner == None ==> m.waiters == [] && m.original == NO_PRIORITY
    ensures var r := Take(id, m, threads, t, true);
      Sane(r.0, r.1) && Release(r.0, r.1, t) == (m, threads)
  {
    var r := Take(id, m, threads, t, true);
    assert r.1 == threads;
    assert threads[t := threads[t].(prio := threads[t].prio)] == threads;
  }

  /** Releasing undoes taking: whenever a take succeeds at once, a release gives back the
      very state before it. */
  lemma TakeReleaseRestores(s: State, t: Tid, id: Mid)
    requires Inv(s) && Enabled(s, TakeOp(t, id, true)) && TakeResult(s.mutexes[id], t, true) == Taken
    ensures var s1 := Step(s, TakeOp(t, id, true));
      Inv(s1) && Enabled(s1, ReleaseOp(t, id)) && Step(s1, ReleaseOp(t, id)) == s
  {
    StepInv(s, TakeOp(t, id, true));
    assert OwnerOk(s, id);
    TakeRelease(id, s.mutexes[id], s.threads, t);
    PutBack(s, id, Take(id, s.mutexes[id], s.threads, t, true), (s.mutexes[id], s.threads));
  }

  lemma PutBack(s: State, id: Mid, r: (Mutex, Threads), q: (Mutex, Threads))
    requires id in s.mutexes && q == (s.mutexes[id], s.threads)
    ensures Put(Put(s, id, r), id, q) == s
  {
    assert s.mutexes[id := r.0][id := q.0] == s.mutexes;
  }

  ghost function Urgent(a: nat, b: nat): nat { if a < b then a else b }

  /** The owner runs at its own priority or at the most urgent waiter's, whichever is more
      urgent. */
  ghost predicate BoostExact(s: State, id: Mid)
    requires id in s.mutexes
  {
    var m := s.mutexes[id];
    m.owner.Some? && m.owner.value in s.threads ==>
      var o := s.threads[m.owner.value];
      o.prio == if m.waiters == [] || m.waiters[0] !in s.threads then o.base
                else Urgent(o.base, s.threads[m.waiters[0]].prio)
  }

  /** A mutex keeps it when its own fields and the priorities of the threads it names do. */
  lemma BoostKept(s: State, s': State, id: Mid)
    requires id in s.mutexes && id in s'.mutexes && BoostExact(s, id)
    requires s'.mutexes[id].owner == s.mutexes[id].owner && s'.mutexes[id].waiters == s.mutexes[id].waiters
    requires s'.threads.Keys == s.threads.Keys
    requires forall u :: u in s.threads && (Owns(s, u, id) || u in s.mutexes[id].waiters) ==>
      s'.threads[u].prio == s.threads[u].prio && s'.threads[u].base == s.threads[u].base
    ensures BoostExact(s', id)
  {
    var m := s.mutexes[id];
    assert m.owner.Some? ==> Owns(s, m.owner.value, id);
    assert m.waiters != [] ==> m.waiters[0] in m.waiters;
  }

  lemma FrontUrgent(l: seq<Tid>, p: Tid -> nat)
    requires SortedBy(l, p) && l != []
    ensures l[0] in l && forall t :: t in l ==> p(l[0]) <= p(t)
  {
    forall t | t in l ensures p(l[0]) <= p(t) {
      var i :| 0 <= i < |l| && l[i] == t;
    }
  }

  lemma WaitBoost(s: State, t: Tid, id: Mid, k: Mid)
    requires Inv(s) && Enabled(s, TakeOp(t, id, false)) && TakeResult(s.mutexes[id], t, false) == Waits
    requires k in s.mutexes && BoostExact(s, k)
    ensures OwnerOk(s, id) && BoostExact(Put(s, id, Take(id, s.mutexes[id], s.threads, t, false)), k)
  {
    hide WaitMutexes, PrioOf, Boosted, BoostExact;
    assert OwnerOk(s, id) && WaitersSorted(s, id);
    var o := s.mutexes[id].owner.value;
    var s' := Put(s, id, Take(id, s.mutexes[id], s.threads, t, false));
    WaitHasEffect(s, t, id);
    assert Owns(s, o, id);
    OwnersRun(s);
    if k == id {
      WaitBoostHere(s, s', t, o, id);
    } else {
      assert WaitersSorted(s, k);
      BoostKept(s, s', k);
    }
  }

  /** The new front of the queue is the newcomer or the old front, whichever is more urgent. */
  lemma WaitBoostHere(s: State, s': State, t: Tid, o: Tid, id: Mid)
    requires WaitEffect(s, s', t, o, id) && s.mutexes[id].owner == Some(o) && BoostExact(s, id)
    requires t !in s.mutexes[id].waiters && o !in s.mutexes[id].waiters
    requires forall u :: u in s.mutexes[id].waiters ==> u in s.threads
    requires SortedBy(s.mutexes[id].waiters, PrioOf(s.threads))
    ensures BoostExact(s', id)
  {
    var l, l' := s.mutexes[id].waiters, s'.mutexes[id].waiters;
    assert t in l';
    FrontUrgent(l', PrioOf(s'.threads));
    if l != [] {
      FrontUrgent(l, PrioOf(s.threads));
      assert l[0] in l';
      assert l'[0] != t ==> PrioOf(s.threads)(l[0]) <= PrioOf(s.threads)(l'[0]);
    }
  }

  lemma HandBoost(s: State, t: Tid, id: Mid, k: Mid)
    requires Inv(s) && Enabled(s, ReleaseOp(t, id)) && Owns(s, t, id) && s.mutexes[id].hold == 1
    requires k in s.mutexes && BoostExact(s, k)
    ensures OwnerOk(s, id) && BoostExact(Put(s, id, Release(s.mutexes[id], s.threads, t)), k)
  {
    assert OwnerOk(s, id) && WaitersSorted(s, id);
    var s' := Put(s, id, Release(s.mutexes[id], s.threads, t));
    HandHasEffect(s, t, id);
    OwnersRun(s);
    var l := s.mutexes[id].waiters;
    if l != [] { assert l[0] in l; WaiterOwnsNothing(s, l[0]); }
    if k != id {
      assert WaitersSorted(s, k);
      BoostKept(s, s', k);
    } else {
      HandBoostHere(s, s', t, id);
    }
  }

  /** The new owner is the front of the queue, so nobody left outranks it. */
  lemma HandBoostHere(s: State, s': State, t: Tid, id: Mid)
    requires HandThreads(s, s', t, id) && HandMutexes(s, s', t, id) && t !in s.mutexes[id].waiters
    requires Distinct(s.mutexes[id].waiters) && SortedBy(s.mutexes[id].waiters, PrioOf(s.threads))
    requires forall u :: u in s.mutexes[id].waiters ==> u in s.threads
    requires s.mutexes[id].waiters != [] ==>
      s.threads[s.mutexes[id].waiters[0]].prio == s.threads[s.mutexes[id].waiters[0]].base
    ensures BoostExact(s', id)
  {
    var l := s.mutexes[id].waiters;
    if |l| > 1 {
      FrontUrgent(l, PrioOf(s.threads));
      assert l[1] in l && PrioOf(s.threads)(l[0]) <= PrioOf(s.threads)(l[1]);
    }
  }

  /** Everything but a waiter's timeout keeps the boost exact. */
  lemma StepBoostExact(s: State, op: Op, k: Mid)
    requires Inv(s) && Enabled(s, op) && !op.TimeoutOp?
    requires k in s.mutexes && BoostExact(s, k)
    ensures k in Step(s, op).mutexes && BoostExact(Step(s, op), k)
  {
    hide WaitersSorted, Inherits, BaseOk;
    var s' := Step(s, op);
    assert OwnerOk(s, k);
    match op
    case TakeOp(t, id, noWait) =>
      assert OwnerOk(s, id);
      match TakeResult(s.mutexes[id], t, noWait) {
        case Waits => WaitBoost(s, t, id, k);
        case Taken => if !Owns(s, t, id) { AtBase(s, t); }
        case _ =>
      }
    case ReleaseOp(t, id) =>
      assert OwnerOk(s, id);
      if Owns(s, t, id) && s.mutexes[id].hold == 1 { HandBoost(s, t, id, k); }
    case ReturnOp(t) => BoostKept(s, s', k);
  }

  /** As long as no waiter times out, an owner is boosted exactly as far as its waiters
      require, in every reachable state. */
  lemma {:induction false} BoostExactEver(s: State, ops: seq<Op>)
    requires Inv(s) && forall k :: k in s.mutexes ==> BoostExact(s, k)
    requires forall i :: 0 <= i < |ops| ==> !ops[i].TimeoutOp?
    ensures forall k :: k in Run(s, ops).mutexes ==> BoostExact(Run(s, ops), k)
    decreases |ops|
  {
    if ops != [] {
      if Enabled(s, ops[0]) {
        StepInv(s, ops[0]);
        forall k | k in Step(s, ops[0]).mutexes ensures BoostExact(Step(s, ops[0]), k) {
          StepBoostExact(s, ops[0], k);
        }
        BoostExactEver(Step(s, ops[0]), ops[1..]);
      } else {
        assert Run(s, ops) == Run(s, ops[1..]);
        BoostExactEver(s, ops[1..]);
      }
    }
  }

  /** A waiter that times out leaves its boost on the owner: the boost stays exact if and
      only if the owner's own priority, or another waiter, was as urgent as the one that
      left. */
  lemma TimeoutLeavesBoost(s: State, t: Tid)
    requires Inv(s) && Enabled(s, TimeoutOp(t)) && BoostExact(s, s.threads[t].status.on)
    ensures var id := s.threads[t].status.on; var m := s.mutexes[id];
      && OwnerOk(s, id) && m.owner != None
      && id in Step(s, TimeoutOp(t)).mutexes
      && (BoostExact(Step(s, TimeoutOp(t)), id) <==>
            || s.threads[m.owner.value].base <= s.threads[t].prio
            || exists u :: u in m.waiters && u != t && u in s.threads && s.threads[u].prio <= s.threads[t].prio)
  {
    hide PrioOf, SortedBy, Inherits, Release, Enqueue, OneEach, Without;
    var id := s.threads[t].status.on;
    var m := s.mutexes[id];
    assert OwnerOk(s, id) && WaitersSorted(s, id);
    var o := m.owner.value;
    assert t in m.waiters;
    FrontUrgent(m.waiters, PrioOf(s.threads));
    assert s.threads[o].prio == Urgent(s.threads[o].base, s.threads[m.waiters[0]].prio);
    var s' := Step(s, TimeoutOp(t));
    assert s'.threads[o].prio == s.threads[o].prio && s'.threads[o].base == s.threads[o].base;
    assert s'.mutexes[id] == m.(waiters := Without(m.waiters, t));
    WithoutMembers(m.waiters, t);
    WithoutSorted(m.waiters, t, PrioOf(s.threads));
    FrontWithout(m.waiters, t, s.threads[o].base, s.threads);
  }

  /** The most urgent of the base priority and the waiters' stays what it is without t
      exactly when something else is as urgent as t. */
  lemma FrontWithout(l: seq<Tid>, t: Tid, base: nat, threads: Threads)
    requires t in l && Distinct(l) && SortedBy(l, PrioOf(threads)) && forall u :: u in l ==> u in threads
    ensures var l' := Without(l, t);
      && (forall u :: u in l' <==> u in l && u != t) && l[0] in l && (l' != [] ==> l'[0] in l' && l'[0] in l)
      && (Urgent(base, threads[l[0]].prio) == (if l' == [] then base else Urgent(base, threads[l'[0]].prio)) <==>
            || base <= threads[t].prio
            || exists u :: u in l && u != t && u in threads && threads[u].prio <= threads[t].prio)
  {
    var p := PrioOf(threads);
    var l' := Without(l, t);
    WithoutMembers(l, t);
    WithoutSorted(l, t, p);
    FrontUrgent(l, p);
    assert p(l[0]) <= p(t);
    if l' != [] {
      FrontUrgent(l', p);
      forall u | u in l && u != t ensures threads[l'[0]].prio <= threads[u].prio { assert p(l'[0]) <= p(u); }
      assert l[0] != t ==> p(l'[0]) <= p(l[0]);
    }
  }

  /** The case in point: once a more urgent thread has waited for a mutex and given up,
      the owner keeps running at that thread's priority although nobody waits. */
  lemma BoostOutlivesWaiter(s: State, low: Tid, high: Tid, id: Mid)
    requires Inv(s) && Owns(s, low, id) && s.mutexes[id].waiters == []
    requires low in s.threads && high in s.threads && s.threads[high].prio < s.threads[low].prio == s.threads[low].base
    requires s.threads[high].status == Active && forall k :: !Owns(s, high, k)
    ensures Inv(Step(s, TakeOp(high, id, false))) && Enabled(Step(s, TakeOp(high, id, false)), TimeoutOp(high))
    ensures var r := Step(Step(s, TakeOp(high, id, false)), TimeoutOp(high));
      && Inv(r) && Owns(r, low, id) && r.mutexes[id].waiters == []
      && low in r.threads && r.threads[low].prio == s.threads[high].prio < r.threads[low].base
  {
    assert OwnerOk(s, id) && WaitersSorted(s, id);
    StepInv(s, TakeOp(high, id, false));
    var s2 := Step(s, TakeOp(high, id, false));
    WaitHasEffect(s, high, id);
    OnlyWaiter(s2.mutexes[id].waiters, high);
    StepInv(s2, TimeoutOp(high));
  }

  lemma OnlyWaiter(l: seq<Tid>, t: Tid)
    requires Distinct(l) && forall u :: u in l <==> u == t
    ensures l == [t] && Without(l, t) == []
  {
    assert t in l;
    var last := |l| - 1;
    assert l[0] in l && l[last] in l && !(0 < last);
  }

  // ---------------------------------------------------- more than one mutex

  /** Each mutex restores the priority its owner had when it was taken.  So an owner of two
      that gives one up for good stays as urgent as those who wait for the other exactly when
      that priority was as urgent as the first of them. */
  lemma TwoHeldExactly(kept: Mutex, given: Mutex, threads: Threads, t: Tid)
    requires Sane(kept, threads) && Sane(given, threads) && kept.owner == given.owner == Some(t) && given.hold == 1
    requires kept.waiters != [] && t !in kept.waiters && t !in given.waiters && SortedBy(kept.waiters, PrioOf(threads))
    ensures var threads' := Release(given, threads, t).1;
      && (forall w :: w in kept.waiters ==> w in threads')
      && t in threads'
      && ((forall w :: w in kept.waiters ==> threads'[t].prio <= threads'[w].prio)
          <==> given.original <= threads[kept.waiters[0]].prio)
  {
    var threads', l := Release(given, threads, t).1, kept.waiters;
    assert l[0] in l;
    forall w | w in l ensures w in threads' && threads'[w].prio == threads[w].prio >= threads[l[0]].prio {
      var i :| 0 <= i < |l| && l[i] == w;
      assert PrioOf(threads)(l[0]) <= PrioOf(threads)(l[i]);
    }
  }

  /** A run: thread 0 takes two mutexes, threads 1 and 2 wait for one each, and thread 0 gives
      the second one up. */
  function TwoMutexes(): (Mutex, Mutex, Threads) {
    var unowned := Mutex(1, None, 0, NO_PRIORITY, []);
    var threads := map[0 := Thread(10, 10, Active), 1 := Thread(5, 5, Active), 2 := Thread(7, 7, Active)];
    var (a1, threads1) := Take(0, unowned, threads, 0, false);
    var (b1, threads2) := Take(1, unowned, threads1, 0, false);
    var (a2, threads3) := Take(0, a1, threads2, 1, false);
    var (b2, threads4) := Take(1, b1, threads3, 2, false);
    var (b3, threads5) := Release(b2, threads4, 0);
    (a2, b3, threads5)
  }

  /** It ends with thread 0 at its own priority, 10, although thread 1, at 5, still waits for
      the first mutex, which thread 0 owns. */
  lemma TwoMutexesDrop()
    ensures var (a, b, threads) := TwoMutexes();
      && a.owner == Some(0) && a.waiters == [1] && b.owner == Some(2)
      && 0 in threads && 1 in threads && threads[0].prio == 10 && threads[1].prio == 5
  {
    hide Enqueue, PrioOf;
    var unowned := Mutex(1, None, 0, NO_PRIORITY, []);
    var start := map[0 := Thread(10, 10, Active), 1 := Thread(5, 5, Active), 2 := Thread(7, 7, Active)];
    var held := Mutex(0, Some(0), 1, 10, []);
    assert Take(0, unowned, start, 0, false) == (held, start);
    assert Take(1, unowned, start, 0, false) == (held, start);
    FirstWaits(0, held, start, 1);
    var boosted := start[0 := Thread(5, 10, Active)][1 := Thread(5, 5, Blocked(0))];
    assert Take(0, held, start, 1, false) == (held.(waiters := [1]), boosted);
    FirstWaits(1, held, boosted, 2);
    var all := boosted[2 := Thread(7, 7, Blocked(1))];
    assert Boosted(boosted, 0, 7) == boosted;
    assert Take(1, held, boosted, 2, false) == (held.(waiters := [2]), all);
  }

  lemma FirstWaits(id: Mid, m: Mutex, threads: Threads, t: Tid)
    requires Sane(m, threads) && t in threads && m.waiters == [] && TakeResult(m, t, false) == Waits
    ensures var boosted := Boosted(threads, m.owner.value, threads[t].prio);
      t in boosted && Take(id, m, threads, t, false)
        == (m.(waiters := [t]), boosted[t := boosted[t].(status := Blocked(id))])
  {
    hide Enqueue;
    EnqueueAlone(t, Prio, PrioOf(Boosted(threads, m.owner.value, threads[t].prio)));
  }

  lemma EnqueueAlone(t: Tid, flag: Flag, prio: Tid -> nat)
    ensures Enqueue([], t, flag, prio) == [t]
  {
  }
}
