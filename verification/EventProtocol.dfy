/** The event object as a transition system (rt-thread/src/ipc.c): a set of 32 flags and
    the threads waiting for all, or any, of the flags they name. */
module EventProtocol {
  import opened IpcThreads
  import opened Lists

  /** A 32-bit event word, as the set of the positions of its one bits. */
  type Bits = set<nat>

  /** The option bits of a receive: AND is looked at before OR. */
  datatype Info = Info(and: bool, or: bool, clear: bool)

  datatype Status = Active | Suspended | Resumed(error: int)

  /** `asked` is the argument of the thread's receive call; `want` is its `event_set`
      field, which a send overwrites with what was received. */
  datatype Thread = Thread(status: Status, info: Info, asked: Bits, want: Bits)

  datatype Config = Config(flag: Flag, prio: Tid -> nat)

  datatype State = State(flags: Bits, waiters: seq<Tid>, threads: map<Tid, Thread>)

  // ------------------------------------------------------------------ flags

  predicate Satisfied(info: Info, want: Bits, flags: Bits) {
    if info.and then want <= flags else info.or && want * flags != {}
  }

  /** What a waiter's `event_set` becomes when it is woken. */
  function Taken(info: Info, want: Bits, flags: Bits): Bits {
    if info.and then want else want * flags
  }

  function Consume(info: Info, taken: Bits, flags: Bits): Bits {
    if info.clear then flags - taken else flags
  }

  /** `got` is an answer to a request for `asked`: all of it, or some of it. */
  predicate Answers(info: Info, asked: Bits, got: Bits) {
    && got <= asked
    && (if info.and then got == asked else got != {})
  }

  // -------------------------------------------------------- the sweep of a send

  datatype Swept = Swept(flags: Bits, left: seq<Tid>, threads: map<Tid, Thread>)

  function Wake(w: Thread, flags: Bits): Thread {
    w.(status := Resumed(EOK), want := Taken(w.info, w.want, flags))
  }

  /** From front to back, each waiter whose condition the current set meets is resumed and,
      with CLEAR, takes its flags out before the next one is looked at. */
  function Sweep(flags: Bits, l: seq<Tid>, threads: map<Tid, Thread>): Swept
    requires forall t :: t in l ==> t in threads
  {
    if l == [] then Swept(flags, [], threads)
    else
      var w := threads[l[0]];
      if Satisfied(w.info, w.want, flags) then
        Sweep(Consume(w.info, Taken(w.info, w.want, flags), flags), l[1..], threads[l[0] := Wake(w, flags)])
      else
        var r := Sweep(flags, l[1..], threads);
        r.(left := [l[0]] + r.left)
  }

  lemma {:induction false} SweepShrinks(flags: Bits, l: seq<Tid>, threads: map<Tid, Thread>)
    requires forall t :: t in l ==> t in threads
    ensures Sweep(flags, l, threads).flags <= flags
    decreases |l|
  {
    if l != [] {
      var w := threads[l[0]];
      if Satisfied(w.info, w.want, flags) {
        var taken := Taken(w.info, w.want, flags);
        SweepShrinks(Consume(w.info, taken, flags), l[1..], threads[l[0] := Wake(w, flags)]);
      } else {
        SweepShrinks(flags, l[1..], threads);
      }
    }
  }

  /** Who is left, and that nobody else changed. */
  lemma {:induction false} SweepMembers(flags: Bits, l: seq<Tid>, threads: map<Tid, Thread>)
    requires Distinct(l) && forall t :: t in l ==> t in threads
    ensures var r := Sweep(flags, l, threads);
      && Distinct(r.left) && (forall t :: t in r.left ==> t in l)
      && r.threads.Keys == threads.Keys
      && (forall t :: t in threads && (t !in l || t in r.left) ==> r.threads[t] == threads[t])
      && (forall t :: t in l && t !in r.left ==>
            r.threads[t] == threads[t].(status := Resumed(EOK), want := r.threads[t].want))
    decreases |l|
  {
    if l != [] {
      TailMembers(l);
      var w := threads[l[0]];
      if Satisfied(w.info, w.want, flags) {
        SweepMembers(Consume(w.info, Taken(w.info, w.want, flags), flags), l[1..], threads[l[0] := Wake(w, flags)]);
      } else {
        SweepMembers(flags, l[1..], threads);
        ConsMembers(l[0], Sweep(flags, l[1..], threads).left);
      }
    }
  }

  lemma {:induction false} SweepSorted(flags: Bits, l: seq<Tid>, threads: map<Tid, Thread>, prio: Tid -> nat)
    requires SortedBy(l, prio) && Distinct(l) && forall t :: t in l ==> t in threads
    ensures SortedBy(Sweep(flags, l, threads).left, prio)
    decreases |l|
  {
    if l != [] {
      TailMembers(l);
      var w := threads[l[0]];
      if Satisfied(w.info, w.want, flags) {
        SweepSorted(Consume(w.info, Taken(w.info, w.want, flags), flags), l[1..], threads[l[0] := Wake(w, flags)],
                    prio);
      } else {
        SweepSorted(flags, l[1..], threads, prio);
        SweepMembers(flags, l[1..], threads);
        var left := Sweep(flags, l[1..], threads).left;
        forall j | 0 <= j < |left| ensures prio(l[0]) <= prio(left[j]) {
          assert left[j] in l[1..];
          var k :| 0 <= k < |l[1..]| && l[1..][k] == left[j];
          assert l[k + 1] == left[j];
        }
      }
    }
  }

  /** After the sweep nobody left in the queue is satisfied by what remains. */
  lemma {:induction false} SweepSettles(flags: Bits, l: seq<Tid>, threads: map<Tid, Thread>, t: Tid)
    requires Distinct(l) && forall u :: u in l ==> u in threads
    requires t in Sweep(flags, l, threads).left
    ensures t in threads && !Satisfied(threads[t].info, threads[t].want, Sweep(flags, l, threads).flags)
    decreases |l|
  {
    SweepMembers(flags, l, threads);
    if l != [] {
      TailMembers(l);
      var w := threads[l[0]];
      if Satisfied(w.info, w.want, flags) {
        var rest := threads[l[0] := Wake(w, flags)];
        var flags' := Consume(w.info, Taken(w.info, w.want, flags), flags);
        SweepMembers(flags', l[1..], rest);
        SweepSettles(flags', l[1..], rest, t);
      } else if t == l[0] {
        SweepShrinks(flags, l, threads);
      } else {
        SweepSettles(flags, l[1..], threads, t);
      }
    }
  }

  /** Each woken waiter received flags that answer what it asked for, all of them in the
      set the sweep started from. */
  lemma {:induction false} SweepAnswers(flags: Bits, l: seq<Tid>, threads: map<Tid, Thread>, t: Tid)
    requires Distinct(l) && forall u :: u in l ==> u in threads
    requires t in l && t !in Sweep(flags, l, threads).left
    ensures var r := Sweep(flags, l, threads);
      && t in r.threads
      && Answers(threads[t].info, threads[t].want, r.threads[t].want)
      && r.threads[t].want <= flags
    decreases |l|
  {
    SweepMembers(flags, l, threads);
    TailMembers(l);
    var w := threads[l[0]];
    if Satisfied(w.info, w.want, flags) {
      var rest := threads[l[0] := Wake(w, flags)];
      var flags' := Consume(w.info, Taken(w.info, w.want, flags), flags);
      SweepMembers(flags', l[1..], rest);
      if t != l[0] {
        SweepAnswers(flags', l[1..], rest, t);
      }
    } else {
      SweepAnswers(flags, l[1..], threads, t);
    }
  }

  lemma HeadConsumes(flags: Bits, l: seq<Tid>, threads: map<Tid, Thread>, t: Tid)
    requires Distinct(l) && l != [] && t in l[1..] && forall u :: u in l ==> u in threads
    requires threads[l[0]].info.clear && Satisfied(threads[l[0]].info, threads[l[0]].want, flags)
    requires t !in Sweep(flags, l, threads).left
    ensures var r := Sweep(flags, l, threads);
      l[0] in r.threads && t in r.threads && r.threads[l[0]].want !! r.threads[t].want
  {
    TailMembers(l);
    var w := threads[l[0]];
    var rest := threads[l[0] := Wake(w, flags)];
    var flags' := Consume(w.info, Taken(w.info, w.want, flags), flags);
    SweepMembers(flags', l[1..], rest);
    SweepAnswers(flags', l[1..], rest, t);
  }

  /** A flag one waiter consumed is not seen by any waiter behind it. */
  lemma {:induction false} ConsumedOnce(flags: Bits, l: seq<Tid>, threads: map<Tid, Thread>, i: nat, j: nat)
    requires Distinct(l) && forall u :: u in l ==> u in threads
    requires i < j < |l| && threads[l[i]].info.clear
    requires l[i] !in Sweep(flags, l, threads).left && l[j] !in Sweep(flags, l, threads).left
    ensures var r := Sweep(flags, l, threads);
      l[i] in r.threads && l[j] in r.threads && r.threads[l[i]].want !! r.threads[l[j]].want
    decreases |l|
  {
    TailMembers(l);
    var w := threads[l[0]];
    assert l[j] == l[1..][j - 1];
    if i == 0 {
      HeadConsumes(flags, l, threads, l[j]);
    } else {
      assert l[i] == l[1..][i - 1];
      if Satisfied(w.info, w.want, flags) {
        ConsumedOnce(Consume(w.info, Taken(w.info, w.want, flags), flags), l[1..], threads[l[0] := Wake(w, flags)],
                     i - 1, j - 1);
      } else {
        ConsumedOnce(flags, l[1..], threads, i - 1, j - 1);
      }
    }
  }

  /** All flags taken by the woken waiters that clear. */
  function Cleared(r: map<Tid, Thread>, left: seq<Tid>, l: seq<Tid>): Bits
    requires forall t :: t in l ==> t in r
  {
    if l == [] then {}
    else (if l[0] !in left && r[l[0]].info.clear then r[l[0]].want else {}) + Cleared(r, left, l[1..])
  }

  /** The set loses exactly the flags received with CLEAR. */
  lemma {:induction false} SweepConsumesExactly(flags: Bits, l: seq<Tid>, threads: map<Tid, Thread>)
    requires Distinct(l) && forall t :: t in l ==> t in threads
    ensures var r := Sweep(flags, l, threads);
      (forall t :: t in l ==> t in r.threads) && r.flags == flags - Cleared(r.threads, r.left, l)
    decreases |l|
  {
    SweepMembers(flags, l, threads);
    if l != [] {
      TailMembers(l);
      var w := threads[l[0]];
      var r := Sweep(flags, l, threads);
      if Satisfied(w.info, w.want, flags) {
        var rest := threads[l[0] := Wake(w, flags)];
        var flags' := Consume(w.info, Taken(w.info, w.want, flags), flags);
        SweepConsumesExactly(flags', l[1..], rest);
        SweepMembers(flags', l[1..], rest);
      } else {
        SweepConsumesExactly(flags, l[1..], threads);
        ClearedSame(r.threads, Sweep(flags, l[1..], threads).left, l[0], l[1..]);
      }
    }
  }

  lemma {:induction false} ClearedSame(r: map<Tid, Thread>, left: seq<Tid>, t: Tid, l: seq<Tid>)
    requires t !in l && forall u :: u in l ==> u in r
    ensures Cleared(r, [t] + left, l) == Cleared(r, left, l)
  {
    if l != [] { ClearedSame(r, left, t, l[1..]); }
  }

  // ------------------------------------------------------------ transitions

  datatype Op =
    | SendOp(bits: Bits)
    | RecvOp(t: Tid, bits: Bits, info: Info, noWait: bool)
    | ReturnOp(t: Tid)
    | TimeoutOp(t: Tid)
    | ResetOp

  ghost predicate Enabled(s: State, op: Op) {
    match op
    case SendOp(bits) => bits != {}
    case RecvOp(t, bits, info, _) =>
      t in s.threads && s.threads[t].status == Active && bits != {} && (info.and || info.or)
    case ReturnOp(t) => t in s.threads && s.threads[t].status.Resumed?
    case TimeoutOp(t) => t in s.threads && s.threads[t].status.Suspended?
    case ResetOp => true
  }

  ghost function Send(s: State, bits: Bits): State
    requires forall t :: t in s.waiters ==> t in s.threads
  {
    var r := Sweep(s.flags + bits, s.waiters, s.threads);
    State(r.flags, r.left, r.threads)
  }

  ghost function Recv(c: Config, s: State, t: Tid, bits: Bits, info: Info, noWait: bool): State {
    if Satisfied(info, bits, s.flags) then
      s.(flags := if info.clear then s.flags - bits else s.flags,
         threads := s.threads[t := Thread(Active, info, bits, s.flags * bits)])
    else if noWait then s
    else s.(waiters := Enqueue(s.waiters, t, c.flag, c.prio),
            threads := s.threads[t := Thread(Status.Suspended, info, bits, bits)])
  }

  ghost function Return(s: State, t: Tid): State
    requires t in s.threads
  {
    s.(threads := s.threads[t := s.threads[t].(status := Active)])
  }

  ghost function Timeout(s: State, t: Tid): State
    requires t in s.threads
  {
    s.(waiters := Without(s.waiters, t), threads := s.threads[t := s.threads[t].(status := Resumed(ETIMEOUT))])
  }

  /** `_ipc_list_resume_all`. */
  function FailAll(threads: map<Tid, Thread>, l: seq<Tid>): map<Tid, Thread>
    requires forall t :: t in l ==> t in threads
  {
    if l == [] then threads
    else FailAll(threads[l[0] := threads[l[0]].(status := Resumed(ERROR))], l[1..])
  }

  ghost function Reset(s: State): State
    requires forall t :: t in s.waiters ==> t in s.threads
  {
    State({}, [], FailAll(s.threads, s.waiters))
  }

  ghost function Step(c: Config, s: State, op: Op): State
    requires Inv(c, s) && Enabled(s, op)
  {
    match op
    case SendOp(bits) => Send(s, bits)
    case RecvOp(t, bits, info, noWait) => Recv(c, s, t, bits, info, noWait)
    case ReturnOp(t) => Return(s, t)
    case TimeoutOp(t) => Timeout(s, t)
    case ResetOp => Reset(s)
  }

  // -------------------------------------------------------------- invariance

  ghost predicate Queued(s: State) {
    && Distinct(s.waiters)
    && forall t :: t in s.waiters <==> t in s.threads && s.threads[t].status.Suspended?
  }

  /** Every waiter waits for something the set does not provide. */
  ghost predicate Unsatisfied(s: State) {
    forall t :: t in s.threads && s.threads[t].status.Suspended? ==>
      && (s.threads[t].info.and || s.threads[t].info.or)
      && s.threads[t].want == s.threads[t].asked != {}
      && !Satisfied(s.threads[t].info, s.threads[t].want, s.flags)
  }

  /** Every thread resumed by a send carries an answer to its request. */
  ghost predicate Answered(s: State) {
    forall t :: t in s.threads && s.threads[t].status == Resumed(EOK) ==>
      Answers(s.threads[t].info, s.threads[t].asked, s.threads[t].want)
  }

  ghost predicate Inv(c: Config, s: State) {
    && Queued(s) && Unsatisfied(s) && Answered(s)
    && (c.flag == Prio ==> SortedBy(s.waiters, c.prio))
  }

  /** A send leaves no waiter behind whose condition is met. */
  lemma SendInv(c: Config, s: State, bits: Bits)
    requires Inv(c, s)
    ensures Inv(c, Send(s, bits))
  {
    var flags := s.flags + bits;
    var s' := Send(s, bits);
    SweepMembers(flags, s.waiters, s.threads);
    if c.flag == Prio { SweepSorted(flags, s.waiters, s.threads, c.prio); }
    forall t | t in s'.waiters ensures !Satisfied(s.threads[t].info, s.threads[t].want, s'.flags) {
      SweepSettles(flags, s.waiters, s.threads, t);
    }
    forall t | t in s.waiters && t !in s'.waiters
      ensures Answers(s'.threads[t].info, s'.threads[t].asked, s'.threads[t].want)
    {
      SweepAnswers(flags, s.waiters, s.threads, t);
    }
  }

  /** A thread suspends only when its condition is not met. */
  lemma RecvInv(c: Config, s: State, t: Tid, bits: Bits, info: Info, noWait: bool)
    requires Inv(c, s) && Enabled(s, RecvOp(t, bits, info, noWait))
    ensures Inv(c, Recv(c, s, t, bits, info, noWait))
  {
    hide Place;
    var s' := Recv(c, s, t, bits, info, noWait);
    EnqueueMembers(s.waiters, t, c.flag, c.prio);
    if c.flag == Prio { EnqueueStable(s.waiters, t, c.prio); }
  }

  lemma TimeoutInv(c: Config, s: State, t: Tid)
    requires Inv(c, s) && Enabled(s, TimeoutOp(t))
    ensures Inv(c, Timeout(s, t))
  {
    WithoutMembers(s.waiters, t);
    if c.flag == Prio { WithoutSorted(s.waiters, t, c.prio); }
  }

  lemma {:induction false} FailAllEffect(threads: map<Tid, Thread>, l: seq<Tid>)
    requires Distinct(l) && forall t :: t in l ==> t in threads
    ensures FailAll(threads, l).Keys == threads.Keys
    ensures forall t :: t in threads ==>
      FailAll(threads, l)[t] == if t in l then threads[t].(status := Resumed(ERROR)) else threads[t]
    decreases |l|
  {
    if l != [] {
      TailMembers(l);
      FailAllEffect(threads[l[0] := threads[l[0]].(status := Resumed(ERROR))], l[1..]);
    }
  }

  /** Every step of every thread and handler keeps the invariant. */
  lemma StepInv(c: Config, s: State, op: Op)
    requires Inv(c, s) && Enabled(s, op)
    ensures Inv(c, Step(c, s, op))
  {
    match op
    case SendOp(bits) => SendInv(c, s, bits);
    case RecvOp(t, bits, info, noWait) => RecvInv(c, s, t, bits, info, noWait);
    case ReturnOp(t) =>
    case TimeoutOp(t) => TimeoutInv(c, s, t);
    case ResetOp => FailAllEffect(s.threads, s.waiters);
  }

  ghost function Run(c: Config, s: State, ops: seq<Op>): State
    requires Inv(c, s)
    decreases |ops|
  {
    if ops == [] then s
    else if Enabled(s, ops[0]) then
      StepInv(c, s, ops[0]);
      Run(c, Step(c, s, ops[0]), ops[1..])
    else Run(c, s, ops[1..])
  }

  /** And so does every interleaving. */
  lemma {:induction false} RunInv(c: Config, s: State, ops: seq<Op>)
    requires Inv(c, s)
    ensures Inv(c, Run(c, s, ops))
    decreases |ops|
  {
    if ops != [] {
      if Enabled(s, ops[0]) {
        StepInv(c, s, ops[0]);
        RunInv(c, Step(c, s, ops[0]), ops[1..]);
      } else {
        RunInv(c, s, ops[1..]);
      }
    }
  }

  ghost predicate Initial(s: State) {
    s.flags == {} && s.waiters == [] && forall t :: t in s.threads ==> s.threads[t].status == Active
  }

  /** In every reachable state no suspended thread's condition is met, and every thread a
      send resumed holds an answer to what it asked for. */
  lemma NobodyWaitsSatisfied(c: Config, s0: State, ops: seq<Op>, t: Tid)
    requires Initial(s0)
    ensures Inv(c, s0)
    ensures var s := Run(c, s0, ops);
      t in s.threads ==>
        && (s.threads[t].status.Suspended? ==> !Satisfied(s.threads[t].info, s.threads[t].asked, s.flags))
        && (s.threads[t].status == Resumed(EOK) ==>
              Answers(s.threads[t].info, s.threads[t].asked, s.threads[t].want))
  {
    RunInv(c, s0, ops);
  }

  /** A receive that does not wait takes exactly the flags it reports. */
  lemma RecvTakesWhatItReports(c: Config, s: State, t: Tid, bits: Bits, info: Info, noWait: bool)
    requires Inv(c, s) && Enabled(s, RecvOp(t, bits, info, noWait)) && Satisfied(info, bits, s.flags)
    ensures var s' := Step(c, s, RecvOp(t, bits, info, noWait)); var got := s'.threads[t].want;
      && Answers(info, bits, got) && got <= s.flags
      && s'.flags == Consume(info, got, s.flags)
      && s'.waiters == s.waiters
  {
  }

  /** A send resumes the first waiter in the queue that the new set satisfies. */
  lemma {:induction false} FirstSatisfiedWakes(flags: Bits, l: seq<Tid>, threads: map<Tid, Thread>, i: nat)
    requires Distinct(l) && forall t :: t in l ==> t in threads
    requires i < |l| && Satisfied(threads[l[i]].info, threads[l[i]].want, flags)
    requires forall j :: 0 <= j < i ==> !Satisfied(threads[l[j]].info, threads[l[j]].want, flags)
    ensures var r := Sweep(flags, l, threads);
      && l[i] !in r.left && l[i] in r.threads
      && r.threads[l[i]].want == threads[l[i]].want * flags
    decreases i
  {
    TailMembers(l);
    if i > 0 {
      assert forall j :: 0 <= j < i - 1 ==> l[1..][j] == l[j + 1];
      FirstSatisfiedWakes(flags, l[1..], threads, i - 1);
    } else {
      var w := threads[l[0]];
      SweepMembers(Consume(w.info, Taken(w.info, w.want, flags), flags), l[1..], threads[l[0] := Wake(w, flags)]);
    }
  }

  // ------------------------------------------------- what each call does, outright

  /** The test of a receive and of a send: with AND all flags asked for are there, otherwise,
      with OR, one of them is. */
  lemma SatisfiedExactly(info: Info, want: Bits, flags: Bits)
    ensures Satisfied(info, want, flags) <==>
      if info.and then forall f :: f in want ==> f in flags else info.or && exists f :: f in want && f in flags
    ensures forall f :: f in Taken(info, want, flags) <==> f in want && (info.and || f in flags)
    ensures forall f :: f in Consume(info, want, flags) <==> f in flags && !(info.clear && f in want)
  {
    var both := want * flags;
    assert forall f :: f in both <==> f in want && f in flags;
    if both != {} {
      var f :| f in both;
      assert f in want && f in flags;
    }
  }

  /** A receive whose condition is met gets those flags that are set, and takes them out with
      CLEAR; one whose condition is not met returns at once, or waits if it may. */
  lemma RecvExactly(c: Config, s: State, t: Tid, bits: Bits, info: Info, noWait: bool)
    requires Inv(c, s) && Enabled(s, RecvOp(t, bits, info, noWait))
    ensures var s' := Step(c, s, RecvOp(t, bits, info, noWait));
      if (if info.and then bits <= s.flags else bits * s.flags != {}) then
        && s'.waiters == s.waiters && s'.threads == s.threads[t := Thread(Active, info, bits, bits * s.flags)]
        && forall f :: f in s'.flags <==> f in s.flags && !(info.clear && f in bits)
      else if noWait then s' == s
      else
        && s'.flags == s.flags && s'.threads == s.threads[t := Thread(Status.Suspended, info, bits, bits)]
        && Joins(s.waiters, s'.waiters, t, c.flag, c.prio)
    ensures var s' := Step(c, s, RecvOp(t, bits, info, noWait));
      t in s'.threads && (s'.threads[t].status.Suspended? <==> !Satisfied(info, bits, s.flags) && !noWait)
  {
    EnqueueJoins(s.waiters, t, c.flag, c.prio);
    assert bits * s.flags == s.flags * bits;
  }

  /** A thread whose time is up leaves the queue with the error, a resumed thread goes on, and
      a reset fails everyone and clears the set; nobody else changes. */
  lemma EndsExactly(c: Config, s: State, t: Tid)
    requires Inv(c, s)
    ensures Enabled(s, TimeoutOp(t)) ==>
      var s' := Step(c, s, TimeoutOp(t));
      && s'.flags == s.flags && s'.threads == s.threads[t := s.threads[t].(status := Resumed(ETIMEOUT))]
      && exists i :: 0 <= i < |s.waiters| && s.waiters[i] == t && s'.waiters == s.waiters[..i] + s.waiters[i + 1..]
    ensures Enabled(s, ReturnOp(t)) ==>
      Step(c, s, ReturnOp(t)) == s.(threads := s.threads[t := s.threads[t].(status := Active)])
    ensures var s' := Step(c, s, ResetOp);
      && s'.flags == {} && s'.waiters == [] && s'.threads.Keys == s.threads.Keys
      && forall u :: u in s.threads ==>
           s'.threads[u] == if s.threads[u].status.Suspended? then s.threads[u].(status := Resumed(ERROR))
             else s.threads[u]
  {
    if Enabled(s, TimeoutOp(t)) {
      var i :| 0 <= i < |s.waiters| && s.waiters[i] == t;
      WithoutIndex(s.waiters, i);
      assert Step(c, s, TimeoutOp(t)).waiters == s.waiters[..i] + s.waiters[i + 1..];
    }
    FailAllEffect(s.threads, s.waiters);
    forall u | u in s.threads ensures u in s.waiters <==> s.threads[u].status.Suspended? { }
  }
}
