/** The mailbox as a transition system: every interrupt-disabled section of
    `rt_mb_send_wait`, `rt_mb_urgent`, `rt_mb_recv` and `rt_mb_control` is one step, and
    steps of any number of threads and interrupt handlers interleave freely.

    A resumed thread is not handed the mail or the slot it waited for: it looks again.
    So a wakeup could be lost if mail arrived while nobody on the way would look. */
module MailboxProtocol {
  import opened IpcThreads
  import opened Lists
  import opened MailOrder

  datatype Config = Config(size: nat, flag: Flag, prio: Tid -> nat)

  datatype State = State(queue: seq<Msg>, receivers: seq<Tid>, senders: seq<Tid>,
                         phase: map<Tid, Phase>, sent: seq<Msg>, received: seq<Msg>)

  ghost predicate Inv(c: Config, s: State) {
    && |s.queue| <= c.size
    && WaitersOk(s.receivers, s.phase, Receiver)
    && WaitersOk(s.senders, s.phase, Sender)
    && NoLostWakeup(s.receivers, |s.queue|, s.phase, Receiver)
    && NoLostWakeup(s.senders, c.size - |s.queue|, s.phase, Sender)
  }

  // ------------------------------------------------------------ transitions

  /** A context that may start, or resume, a call in this role. */
  ghost predicate MayTry(s: State, t: Tid, role: Role, v: Msg) {
    t in s.phase && (s.phase[t] == Running || s.phase[t] == Woken(role, v, EOK))
  }

  /** Mail goes in at one end or the other; the first waiting receiver resumes. */
  ghost function Post(s: State, v: Msg, urgent: bool): State
    requires HeadWaits(s.receivers, s.phase)
  {
    s.(queue := if urgent then [v] + s.queue else s.queue + [v],
       sent := s.sent + [v],
       phase := WakeHead(s.phase, s.receivers), receivers := Rest(s.receivers))
  }

  /** One pass of the send loop: full means return or suspend, otherwise post. */
  ghost function TrySend(c: Config, s: State, t: Tid, v: Msg, noWait: bool): State
    requires MayTry(s, t, Sender, v) && HeadWaits(s.receivers, s.phase) && t !in s.receivers
  {
    if |s.queue| == c.size then
      if noWait then s.(phase := s.phase[t := Running])
      else s.(phase := s.phase[t := Suspended(Sender, v)], senders := Enqueue(s.senders, t, c.flag, c.prio))
    else
      Post(s.(phase := s.phase[t := Running]), v, false)
  }

  ghost function TryUrgent(c: Config, s: State, v: Msg): State
    requires HeadWaits(s.receivers, s.phase)
  {
    if |s.queue| == c.size then s else Post(s, v, true)
  }

  /** One pass of the receive loop: empty means return or suspend, otherwise take the
      first mail and resume the first waiting sender. */
  ghost function TryRecv(c: Config, s: State, t: Tid, noWait: bool): State
    requires MayTry(s, t, Receiver, 0) && HeadWaits(s.senders, s.phase) && t !in s.senders
  {
    if s.queue == [] then
      if noWait then s.(phase := s.phase[t := Running])
      else s.(phase := s.phase[t := Suspended(Receiver, 0)], receivers := Enqueue(s.receivers, t, c.flag, c.prio))
    else
      s.(queue := s.queue[1..], received := s.received + [s.queue[0]],
         phase := WakeHead(s.phase[t := Running], s.senders), senders := Rest(s.senders))
  }

  /** A thread that resumed with an error returns it without looking at the mailbox. */
  ghost function Fail(s: State, t: Tid): State {
    s.(phase := s.phase[t := Running])
  }

  /** The thread timer of a suspended thread fires. */
  ghost function Timeout(s: State, t: Tid): State
    requires t in s.phase && s.phase[t].Suspended?
  {
    s.(phase := s.phase[t := Woken(s.phase[t].role, s.phase[t].value, ETIMEOUT)],
       receivers := if s.phase[t].role == Receiver then Without(s.receivers, t) else s.receivers,
       senders := if s.phase[t].role == Sender then Without(s.senders, t) else s.senders)
  }

  ghost function Reset(s: State): State
    requires WaitersOk(s.receivers, s.phase, Receiver) && WaitersOk(s.senders, s.phase, Sender)
  {
    s.(queue := [], receivers := [], senders := [],
       phase := ResumeAll(ResumeAll(s.phase, s.receivers), s.senders))
  }

  datatype Op =
    | SendOp(t: Tid, v: Msg, noWait: bool)
    | UrgentOp(v: Msg)
    | RecvOp(t: Tid, noWait: bool)
    | FailOp(t: Tid)
    | TimeoutOp(t: Tid)
    | ResetOp

  ghost predicate Enabled(s: State, op: Op) {
    match op
    case SendOp(t, v, _) => MayTry(s, t, Sender, v)
    case UrgentOp(_) => true
    case RecvOp(t, _) => MayTry(s, t, Receiver, 0)
    case FailOp(t) => t in s.phase && s.phase[t].Woken? && s.phase[t].error != EOK
    case TimeoutOp(t) => t in s.phase && s.phase[t].Suspended?
    case ResetOp => true
  }

  ghost function Step(c: Config, s: State, op: Op): State
    requires Inv(c, s) && Enabled(s, op)
  {
    HeadsWait(c, s);
    match op
    case SendOp(t, v, noWait) => TrySend(c, s, t, v, noWait)
    case UrgentOp(v) => TryUrgent(c, s, v)
    case RecvOp(t, noWait) => TryRecv(c, s, t, noWait)
    case FailOp(t) => Fail(s, t)
    case TimeoutOp(t) => Timeout(s, t)
    case ResetOp => Reset(s)
  }

  lemma HeadsWait(c: Config, s: State)
    requires Inv(c, s)
    ensures HeadWaits(s.receivers, s.phase) && HeadWaits(s.senders, s.phase)
  {
    HeadDoesWait(s.receivers, s.phase, Receiver);
    HeadDoesWait(s.senders, s.phase, Sender);
  }

  // ------------------------------------------------------------- invariance

  lemma PostInv(c: Config, s: State, v: Msg, urgent: bool)
    requires |s.queue| < c.size
    requires WaitersOk(s.receivers, s.phase, Receiver) && WaitersOk(s.senders, s.phase, Sender)
    requires NoLostWakeup(s.receivers, |s.queue|, s.phase, Receiver)
    requires NoLostWakeup(s.senders, c.size - |s.queue| - 1, s.phase, Sender)
    ensures HeadWaits(s.receivers, s.phase) && Inv(c, Post(s, v, urgent))
  {
    WakeHeadEffect(s.phase, s.receivers, Receiver, s.senders, Sender);
  }

  /** A send, whether it posts, waits or fails. */
  lemma SendInv(c: Config, s: State, t: Tid, v: Msg, noWait: bool)
    requires Inv(c, s) && MayTry(s, t, Sender, v)
    ensures HeadWaits(s.receivers, s.phase) && t !in s.receivers && Inv(c, TrySend(c, s, t, v, noWait))
  {
    HeadsWait(c, s);
    MoveOnEffect(s.phase, t, Running, s.receivers, Receiver);
    MoveOnEffect(s.phase, t, Running, s.senders, Sender);
    if |s.queue| == c.size {
      SuspendEffect(s.phase, t, v, c.flag, c.prio, s.senders, Sender, s.receivers, Receiver);
    } else {
      PostInv(c, s.(phase := s.phase[t := Running]), v, false);
    }
  }

  lemma UrgentInv(c: Config, s: State, v: Msg)
    requires Inv(c, s)
    ensures HeadWaits(s.receivers, s.phase) && Inv(c, TryUrgent(c, s, v))
  {
    HeadsWait(c, s);
    if |s.queue| != c.size { PostInv(c, s, v, true); }
  }

  /** A receive, whether it takes, waits or fails. */
  lemma RecvInv(c: Config, s: State, t: Tid, noWait: bool)
    requires Inv(c, s) && MayTry(s, t, Receiver, 0)
    ensures HeadWaits(s.senders, s.phase) && t !in s.senders && Inv(c, TryRecv(c, s, t, noWait))
  {
    HeadsWait(c, s);
    MoveOnEffect(s.phase, t, Running, s.receivers, Receiver);
    MoveOnEffect(s.phase, t, Running, s.senders, Sender);
    if s.queue == [] {
      SuspendEffect(s.phase, t, 0, c.flag, c.prio, s.receivers, Receiver, s.senders, Sender);
    } else {
      WakeHeadEffect(s.phase[t := Running], s.senders, Sender, s.receivers, Receiver);
    }
  }

  lemma TimeoutInv(c: Config, s: State, t: Tid)
    requires Inv(c, s) && t in s.phase && s.phase[t].Suspended?
    ensures Inv(c, Timeout(s, t))
  {
    if s.phase[t].role == Receiver {
      TimeoutEffect(s.phase, t, s.receivers, s.senders, Sender);
    } else {
      TimeoutEffect(s.phase, t, s.senders, s.receivers, Receiver);
    }
  }

  /** A reset sends everyone away. */
  lemma ResetInv(c: Config, s: State)
    requires Inv(c, s)
    ensures Inv(c, Reset(s))
  {
  }

  /** Every step of every thread and handler keeps the invariant. */
  lemma StepInv(c: Config, s: State, op: Op)
    requires Inv(c, s) && Enabled(s, op)
    ensures Inv(c, Step(c, s, op))
  {
    match op
    case SendOp(t, v, noWait) => SendInv(c, s, t, v, noWait);
    case UrgentOp(v) => UrgentInv(c, s, v);
    case RecvOp(t, noWait) => RecvInv(c, s, t, noWait);
    case FailOp(t) =>
      MoveOnEffect(s.phase, t, Running, s.receivers, Receiver);
      MoveOnEffect(s.phase, t, Running, s.senders, Sender);
    case TimeoutOp(t) => TimeoutInv(c, s, t);
    case ResetOp => ResetInv(c, s);
  }

  // -------------------------------------------------------------- whole runs

  /** An interleaving: operations that are not enabled when their turn comes do nothing. */
  ghost function Run(c: Config, s: State, ops: seq<Op>): State
    requires Inv(c, s)
    decreases |ops|
  {
    if ops == [] then s
    else if Enabled(s, ops[0]) then
      StepInv(c, s, ops[0]);
      Run(c, Step(c, s, ops[0]), ops[1..])
    else Run(c, s, ops[1..])
  }

  ghost function Start(threads: set<Tid>): State {
    State([], [], [], map t | t in threads :: Running, [], [])
  }

  /** And so does every interleaving. */
  lemma {:induction false} RunInv(c: Config, s: State, ops: seq<Op>)
    requires Inv(c, s)
    ensures Inv(c, Run(c, s, ops))
    decreases |ops|
  {
    if ops != [] {
      if Enabled(s, ops[0]) {
        StepInv(c, s, ops[0]);
        RunInv(c, Step(c, s, ops[0]), ops[1..]);
      } else {
        RunInv(c, s, ops[1..]);
      }
    }
  }

  /** No lost wakeup, after any interleaving from the start: mail and a suspended receiver
      never coexist unless at least as many receivers as mails are on their way; each of
      those takes a mail when it runs.  The same holds of free slots and senders. */
  lemma NoLostWakeupEver(c: Config, threads: set<Tid>, ops: seq<Op>)
    ensures Inv(c, Start(threads))
    ensures var s := Run(c, Start(threads), ops);
      && (s.receivers != [] ==> |s.queue| <= WokenCount(s.phase, Receiver))
      && (s.senders != [] ==> c.size - |s.queue| <= WokenCount(s.phase, Sender))
      && (s.receivers != [] && s.queue != [] ==>
            exists t :: t in s.phase && OnItsWay(s.phase[t], Receiver))
      && (s.senders != [] && |s.queue| < c.size ==>
            exists t :: t in s.phase && OnItsWay(s.phase[t], Sender))
  {
    RunInv(c, Start(threads), ops);
    var s := Run(c, Start(threads), ops);
    if s.receivers != [] && s.queue != [] { WokenExists(s.phase, Receiver); }
    if s.senders != [] && |s.queue| < c.size { WokenExists(s.phase, Sender); }
  }

  /** A receiver on its way that finds mail takes the oldest one, whatever its timeout. */
  lemma WokenReceiverTakes(c: Config, s: State, t: Tid, noWait: bool)
    requires Inv(c, s) && t in s.phase && s.phase[t] == Woken(Receiver, 0, EOK) && s.queue != []
    ensures Enabled(s, RecvOp(t, noWait))
    ensures var s' := Step(c, s, RecvOp(t, noWait));
      s'.received == s.received + [s.queue[0]] && s'.queue == s.queue[1..]
  {
  }

  // ------------------------------------------------------ order and contents

  /** What an onlooker notes of a step. */
  ghost function Noted(c: Config, s: State, op: Op, log: Log): Log {
    match op
    case SendOp(t, v, noWait) => if |s.queue| == c.size then log else Posted(log, v, false)
    case UrgentOp(v) => if |s.queue| == c.size then log else Posted(log, v, true)
    case RecvOp(t, noWait) => Taken(log)
    case FailOp(t) => log
    case TimeoutOp(t) => log
    case ResetOp => EMPTY
  }

  ghost function RunLog(c: Config, s: State, ops: seq<Op>, log: Log): Log
    requires Inv(c, s)
    decreases |ops|
  {
    if ops == [] then log
    else if Enabled(s, ops[0]) then
      StepInv(c, s, ops[0]);
      RunLog(c, Step(c, s, ops[0]), ops[1..], Noted(c, s, ops[0], log))
    else RunLog(c, s, ops[1..], log)
  }

  lemma StepInOrder(c: Config, s: State, op: Op, log: Log)
    requires Inv(c, s) && Enabled(s, op) && InOrder(log, s.queue)
    ensures InOrder(Noted(c, s, op, log), Step(c, s, op).queue)
  {
    hide InOrder, Inv, Posted, Taken;
    match op
    case SendOp(t, v, noWait) => PostedInOrder(log, s.queue, v, false);
    case UrgentOp(v) => PostedInOrder(log, s.queue, v, true);
    case RecvOp(t, noWait) => TakenInOrder(log, s.queue);
    case FailOp(t) =>
    case TimeoutOp(t) =>
    case ResetOp => EmptyInOrder();
  }

  /** In every run, urgent mail and resets included: since the last reset, the plain mail
      received and the plain mail in the box, in this order, are exactly the plain mail sent,
      in the order sent; and urgent mail stands in front. */
  lemma {:induction false} FifoOrder(c: Config, s: State, ops: seq<Op>, log: Log)
    requires Inv(c, s) && InOrder(log, s.queue)
    ensures InOrder(RunLog(c, s, ops, log), Run(c, s, ops).queue)
    decreases |ops|
  {
    hide InOrder, Inv, Noted;
    if ops != [] {
      if Enabled(s, ops[0]) {
        StepInv(c, s, ops[0]);
        StepInOrder(c, s, ops[0], log);
        FifoOrder(c, Step(c, s, ops[0]), ops[1..], Noted(c, s, ops[0], log));
      } else {
        FifoOrder(c, s, ops[1..], log);
      }
    }
  }

  /** So it is from the start. */
  lemma FifoEver(c: Config, threads: set<Tid>, ops: seq<Op>)
    ensures Inv(c, Start(threads))
    ensures InOrder(RunLog(c, Start(threads), ops, EMPTY), Run(c, Start(threads), ops).queue)
  {
    EmptyInOrder();
    FifoOrder(c, Start(threads), ops, EMPTY);
  }

  /** Without urgent mail and resets, all mail is received in the order sent. */
  lemma {:induction false} PlainRunOrder(c: Config, s: State, ops: seq<Op>)
    requires Inv(c, s) && s.sent == s.received + s.queue
    requires forall i :: 0 <= i < |ops| ==> !ops[i].UrgentOp? && !ops[i].ResetOp?
    ensures var s' := Run(c, s, ops); s'.sent == s'.received + s'.queue
    decreases |ops|
  {
    hide Inv;
    if ops != [] {
      if Enabled(s, ops[0]) {
        StepInv(c, s, ops[0]);
        var s1 := Step(c, s, ops[0]);
        assert s1.sent == s1.received + s1.queue;
        PlainRunOrder(c, s1, ops[1..]);
      } else {
        PlainRunOrder(c, s, ops[1..]);
      }
    }
  }

  ghost predicate Conserved(s: State) {
    multiset(s.sent) == multiset(s.received) + multiset(s.queue)
  }

  lemma StepConserved(c: Config, s: State, op: Op)
    requires Inv(c, s) && Enabled(s, op) && !op.ResetOp? && Conserved(s)
    ensures Conserved(Step(c, s, op))
  {
    hide Inv, Conserved, Suspends, Joins, ResumesFirst, TimesOut, TrySend, TryUrgent, TryRecv, Fail, Timeout;
    match op
    case SendOp(t, v, noWait) => SendExactly(c, s, t, v, noWait); ConservedMoves(s, Step(c, s, op), v);
    case UrgentOp(v) => UrgentExactly(c, s, v); ConservedMoves(s, Step(c, s, op), v);
    case RecvOp(t, noWait) =>
      RecvExactly(c, s, t, noWait);
      ConservedMoves(s, Step(c, s, op), if s.queue == [] then 0 else s.queue[0]);
    case FailOp(t) => EndsExactly(c, s, t); ConservedMoves(s, Step(c, s, op), 0);
    case TimeoutOp(t) => EndsExactly(c, s, t); ConservedMoves(s, Step(c, s, op), 0);
  }

  /** Nothing moves, or one mail does: in at either end, or out. */
  lemma ConservedMoves(s: State, s': State, v: Msg)
    requires Conserved(s)
    requires
      || (s'.sent == s.sent && s'.received == s.received && s'.queue == s.queue)
      || (s'.sent == s.sent + [v] && s'.received == s.received
          && (s'.queue == s.queue + [v] || s'.queue == [v] + s.queue))
      || (s'.sent == s.sent && s'.received == s.received + [v] && s.queue == [v] + s'.queue)
    ensures Conserved(s')
  {
  }

  /** Without a reset nothing is lost or duplicated, urgent mail included. */
  lemma {:induction false} MailConserved(c: Config, s: State, ops: seq<Op>)
    requires Inv(c, s) && Conserved(s)
    requires forall i :: 0 <= i < |ops| ==> !ops[i].ResetOp?
    ensures Conserved(Run(c, s, ops))
    decreases |ops|
  {
    if ops != [] {
      if Enabled(s, ops[0]) {
        StepInv(c, s, ops[0]);
        StepConserved(c, s, ops[0]);
        MailConserved(c, Step(c, s, ops[0]), ops[1..]);
      } else {
        MailConserved(c, s, ops[1..]);
      }
    }
  }

  // ------------------------------------------------------------ who is resumed

  ghost predicate Ordered(c: Config, s: State) {
    c.flag == Prio ==> SortedBy(s.receivers, c.prio) && SortedBy(s.senders, c.prio)
  }

  lemma StepOrdered(c: Config, s: State, op: Op)
    requires Inv(c, s) && Enabled(s, op) && Ordered(c, s)
    ensures Ordered(c, Step(c, s, op))
  {
    if c.flag == Prio {
      match op
      case SendOp(t, v, noWait) => EnqueueStable(s.senders, t, c.prio);
      case RecvOp(t, noWait) => EnqueueStable(s.receivers, t, c.prio);
      case TimeoutOp(t) =>
        WithoutSorted(s.receivers, t, c.prio);
        WithoutSorted(s.senders, t, c.prio);
      case UrgentOp(v) =>
      case FailOp(t) =>
      case ResetOp =>
    }
  }

  /** With priority queueing, the receiver that mail resumes is a most urgent one, after
      any interleaving. */
  lemma {:induction false} MostUrgentFirst(c: Config, s: State, ops: seq<Op>)
    requires Inv(c, s) && Ordered(c, s) && c.flag == Prio
    ensures var s' := Run(c, s, ops);
      && Ordered(c, s')
      && (forall t :: t in s'.receivers ==> c.prio(s'.receivers[0]) <= c.prio(t))
      && (forall t :: t in s'.senders ==> c.prio(s'.senders[0]) <= c.prio(t))
    decreases |ops|
  {
    if ops != [] {
      if Enabled(s, ops[0]) {
        StepInv(c, s, ops[0]);
        StepOrdered(c, s, ops[0]);
        MostUrgentFirst(c, Step(c, s, ops[0]), ops[1..]);
      } else {
        MostUrgentFirst(c, s, ops[1..]);
      }
    }
  }

  // ------------------------------------------------- what each call does, outright

  /** A send into a full mailbox returns at once, or waits if it may; a send that finds room
      puts the mail behind all other and resumes the first waiting receiver. */
  lemma SendExactly(c: Config, s: State, t: Tid, v: Msg, noWait: bool)
    requires Inv(c, s) && Enabled(s, SendOp(t, v, noWait))
    ensures var s' := Step(c, s, SendOp(t, v, noWait));
      if |s.queue| < c.size then
        && s'.queue == s.queue + [v] && s'.sent == s.sent + [v] && s'.received == s.received
        && s'.senders == s.senders && ResumesFirst(s.phase, s'.phase, s.receivers, s'.receivers, t)
      else
        && s' == s.(phase := s'.phase, senders := s'.senders)
        && if noWait then s'.phase == s.phase[t := Running] && s'.senders == s.senders
           else Suspends(s.phase, s'.phase, t, Sender, v) && Joins(s.senders, s'.senders, t, c.flag, c.prio)
    ensures var s' := Step(c, s, SendOp(t, v, noWait));
      t in s'.phase && (s'.phase[t].Suspended? <==> |s.queue| == c.size && !noWait)
  {
    HeadsWait(c, s);
    EnqueueJoins(s.senders, t, c.flag, c.prio);
    WakeHeadResumes(s.phase, s.receivers, t);
  }

  /** An urgent send into a full mailbox does nothing; otherwise its mail goes in front. */
  lemma UrgentExactly(c: Config, s: State, v: Msg)
    requires Inv(c, s)
    ensures var s', l := Step(c, s, UrgentOp(v)), s.receivers;
      if |s.queue| < c.size then
        && s'.queue == [v] + s.queue && s'.sent == s.sent + [v] && s'.received == s.received
        && s'.senders == s.senders && s'.phase.Keys == s.phase.Keys
        && (l == [] ==> s'.receivers == [] && s'.phase == s.phase)
        && (l != [] ==>
              && s'.receivers == l[1..] && l[0] in s.phase && s.phase[l[0]].Suspended?
              && s'.phase == s.phase[l[0] := Woken(s.phase[l[0]].role, s.phase[l[0]].value, EOK)])
      else s' == s
  {
    HeadsWait(c, s);
  }

  /** A receive from an empty mailbox returns at once, or waits if it may; any other takes the
      first mail and resumes the first waiting sender. */
  lemma RecvExactly(c: Config, s: State, t: Tid, noWait: bool)
    requires Inv(c, s) && Enabled(s, RecvOp(t, noWait))
    ensures var s' := Step(c, s, RecvOp(t, noWait));
      if s.queue != [] then
        && s.queue == [s.queue[0]] + s'.queue && s'.received == s.received + [s.queue[0]] && s'.sent == s.sent
        && s'.receivers == s.receivers && ResumesFirst(s.phase, s'.phase, s.senders, s'.senders, t)
      else
        && s' == s.(phase := s'.phase, receivers := s'.receivers)
        && if noWait then s'.phase == s.phase[t := Running] && s'.receivers == s.receivers
           else Suspends(s.phase, s'.phase, t, Receiver, 0) && Joins(s.receivers, s'.receivers, t, c.flag, c.prio)
    ensures var s' := Step(c, s, RecvOp(t, noWait));
      t in s'.phase && (s'.phase[t].Suspended? <==> s.queue == [] && !noWait)
  {
    HeadsWait(c, s);
    EnqueueJoins(s.receivers, t, c.flag, c.prio);
    WakeHeadResumes(s.phase, s.senders, t);
  }

  /** A suspended thread whose time is up, one that returns its error, and a reset. */
  lemma EndsExactly(c: Config, s: State, t: Tid)
    requires Inv(c, s)
    ensures Enabled(s, TimeoutOp(t)) ==>
      var s' := Step(c, s, TimeoutOp(t));
      && s' == s.(phase := s'.phase, receivers := s'.receivers, senders := s'.senders)
      && if s.phase[t].role == Receiver
         then s'.senders == s.senders && TimesOut(s.phase, s'.phase, s.receivers, s'.receivers, t)
         else s'.receivers == s.receivers && TimesOut(s.phase, s'.phase, s.senders, s'.senders, t)
    ensures Enabled(s, FailOp(t)) ==> Step(c, s, FailOp(t)) == s.(phase := s.phase[t := Running])
    ensures var s' := Step(c, s, ResetOp);
      && s'.queue == [] && s'.receivers == [] && s'.senders == [] && AllFail(s.phase, s'.phase)
      && s'.sent == s.sent && s'.received == s.received
  {
    if Enabled(s, TimeoutOp(t)) {
      WithoutTimesOut(s.phase, if s.phase[t].role == Receiver then s.receivers else s.senders, t);
    }
  }
}
