/** The scheduler object (rt-thread/src/scheduler.c, rt-thread/src/thread.c), built for more
    than 32 priorities: ready queues under a two-level bitmap.  Each method is one
    interrupt-disabled section. */
module Scheduler {
  import opened BitSearch
  import opened Lists
  import opened ReadyIndex
  import opened SchedulerSpec

  /** The fields a thread keeps for the bitmap: its byte, and a mask for each level. */
  datatype Place = Place(number: nat, numberMask: Word, highMask: Word)

  ghost predicate PlaceOk(x: Place, prio: nat) {
    prio < 256 && x == Place(prio / 8, Mask(prio / 8), Mask(prio % 8))
  }

  class Scheduler {
    var threads: map<Tid, Thread>
    var places: map<Tid, Place>
    var priorityTable: seq<seq<Tid>>
    var readyTable: seq<Word>
    var readyPriorityGroup: Word
    var currentThread: Tid
    var lockNest: nat

    ghost function View(): State
      reads this
    {
      State(threads, priorityTable, currentThread, lockNest)
    }

    ghost predicate PlacesOk()
      reads this
    {
      forall t :: t in threads && !threads[t].stat.Init? ==> t in places && PlaceOk(places[t], threads[t].prio)
    }

    /** The bitmap and the queues agree. */
    ghost predicate Indexed()
      reads this
    {
      IndexOk(priorityTable, readyTable, readyPriorityGroup)
    }

    ghost predicate Valid()
      reads this
    {
      Inv(View()) && PlacesOk() && Indexed()
    }

    /** `rt_system_scheduler_init`, with one thread running. */
    constructor (priorities: nat, idle: Tid, prio: nat)
      requires prio < priorities <= 256
      ensures Valid() && lockNest == 0 && currentThread == idle
      ensures threads == map[idle := Thread(Running, false, prio)] && |priorityTable| == priorities
    {
      threads := map[idle := Thread(Running, false, prio)];
      places := map[idle := Place(prio / 8, Mask(prio / 8), Mask(prio % 8))];
      priorityTable := seq(priorities, _ => []);
      readyTable := seq(32, _ => 0);
      readyPriorityGroup := 0;
      currentThread, lockNest := idle, 0;
      new;
      EmptyIndex(priorityTable, readyTable);
    }

    // ------------------------------------------------------------ the queues

    /** `rt_schedule_insert_thread`. */
    method InsertThread(t: Tid)
      requires Indexed() && t in threads && threads[t].prio < |priorityTable| && t in places
      requires PlaceOk(places[t], threads[t].prio)
      modifies this`threads, this`priorityTable, this`readyTable, this`readyPriorityGroup
      ensures Indexed() && View() == Insert(old(View()), t)
    {
      hide IndexOk, Mask, With;
      if t == currentThread {
        threads := threads[t := threads[t].(stat := Running)];
        return;
      }
      var p, x := threads[t].prio, places[t];
      threads := threads[t := threads[t].(stat := Ready)];
      SetIndex(priorityTable, readyTable, readyPriorityGroup, p, priorityTable[p] + [t], x.number, p % 8);
      TableSize(priorityTable, readyTable, readyPriorityGroup);
      priorityTable := priorityTable[p := priorityTable[p] + [t]];
      readyTable := readyTable[x.number := With(readyTable[x.number], x.highMask)];
      readyPriorityGroup := With(readyPriorityGroup, x.numberMask);
    }

    /** `rt_schedule_remove_thread`; a thread that is on no queue changes nothing. */
    method RemoveThread(t: Tid)
      requires Indexed() && t in threads && threads[t].prio < |priorityTable| && t in places
      requires PlaceOk(places[t], threads[t].prio)
      modifies this`priorityTable, this`readyTable, this`readyPriorityGroup
      ensures Indexed() && View() == Remove(old(View()), t)
    {
      hide IndexOk, Mask, Minus;
      var p, x := threads[t].prio, places[t];
      TableSize(priorityTable, readyTable, readyPriorityGroup);
      ghost var queue := priorityTable[p];
      priorityTable := priorityTable[p := Without(priorityTable[p], t)];
      if priorityTable[p] == [] {
        ClearIndex(old(priorityTable), readyTable, readyPriorityGroup, p, x.number, p % 8);
        readyTable := readyTable[x.number := Minus(readyTable[x.number], x.highMask)];
        if readyTable[x.number] == 0 {
          readyPriorityGroup := Minus(readyPriorityGroup, x.numberMask);
        }
      } else {
        assert Without([], t) == [];
        SameIndex(old(priorityTable), readyTable, readyPriorityGroup, p, Without(queue, t));
      }
    }

    /** `_scheduler_get_highest_priority_thread`. */
    method HighestPriorityThread() returns (t: Tid, prio: nat)
      requires Indexed() && readyPriorityGroup != 0
      ensures prio == Top(priorityTable) < |priorityTable| && t == priorityTable[prio][0]
    {
      hide Has, ByteFfs;
      PickExact(priorityTable, readyTable, readyPriorityGroup);
      TableSize(priorityTable, readyTable, readyPriorityGroup);
      var number: nat := ByteFfs(readyPriorityGroup) - 1;
      prio := 8 * number + ByteFfs(readyTable[number]) - 1;
      TopExact(priorityTable, prio);
      t := priorityTable[prio][0];
    }

    // ---------------------------------------------------------- scheduling

    /** `rt_schedule`. */
    method Schedule()
      requires Valid()
      modifies this
      ensures Valid() && View() == SchedulerSpec.Schedule(old(View()))
    {
      hide Queued, Top, IndexOk, PlaceOk, Without, Known, Insert, Remove, SetStat, SchedulerSpec.Schedule;
      ScheduleInv(View());
      ScheduleThreads(View());
      ScheduleIs(View());
      NothingReady(priorityTable, readyTable, readyPriorityGroup);
      if lockNest == 0 && readyPriorityGroup != 0 {
        var to, top := HighestPriorityThread();
        HeadReady(View(), top);
        var needInsert := false;
        var from := currentThread;
        if threads[from].stat == Running {
          if threads[from].prio < top {
            to := from;
          } else if threads[from].prio == top && !threads[from].yielding {
            to := from;
          } else {
            needInsert := true;
          }
          threads := threads[from := threads[from].(yielding := false)];
        }
        if to != from {
          SwitchTo(from, to, needInsert);
        } else {
          NotQueued(old(View()), from);
          RunOn(from);
        }
      }
    }

    /** The current thread keeps running; it is on no queue. */
    method RunOn(from: Tid)
      requires Indexed() && from in threads && threads[from].stat == Running
      requires threads[from].prio < |priorityTable| && from in places && PlaceOk(places[from], threads[from].prio)
      requires var p := threads[from].prio; priorityTable[p := Without(priorityTable[p], from)] == priorityTable
      modifies this
      ensures Indexed() && places == old(places) && View() == old(View())
    {
      hide IndexOk, PlaceOk, Without;
      RemoveThread(from);
      assert threads[from := threads[from].(stat := Running)] == threads;
      threads := threads[from := threads[from].(stat := Running)];
    }

    /** Another thread becomes current; a running one that was preempted is queued. */
    method SwitchTo(from: Tid, to: Tid, needInsert: bool)
      requires Indexed() && from in threads && to in threads && from != to && from == currentThread
      requires threads[from].prio < |priorityTable| && threads[to].prio < |priorityTable|
      requires from in places && PlaceOk(places[from], threads[from].prio)
      requires to in places && PlaceOk(places[to], threads[to].prio)
      modifies this
      ensures Indexed() && places == old(places)
      ensures View() ==
        var s1 := old(View()).(current := to);
        var s2 := if needInsert then Insert(s1, from) else s1;
        SetStat(Remove(s2, to), to, Running)
    {
      hide IndexOk, PlaceOk;
      currentThread := to;
      if needInsert {
        InsertThread(from);
      }
      RemoveThread(to);
      threads := threads[to := threads[to].(stat := Running)];
    }

    // -------------------------------------------------------- thread states

    /** `rt_thread_startup`, up to its call of `rt_schedule`. */
    method Startup(t: Tid)
      requires Valid() && t in threads && threads[t].stat == Init
      modifies this
      ensures Valid() && View() == Step(old(View()), StartupOp(t))
    {
      hide Queued, IndexOk;
      StepInv(View(), StartupOp(t));
      var prio := threads[t].prio;
      places := places[t := Place(prio / 8, Mask(prio / 8), Mask(prio % 8))];
      threads := threads[t := threads[t].(stat := Suspended)];
      InsertThread(t);
    }

    /** `rt_thread_suspend` of the calling thread: false when it is not running. */
    method Suspend() returns (ok: bool)
      requires Valid()
      modifies this
      ensures ok <==> old(threads[currentThread].stat == Running)
      ensures Valid() && View() == Step(old(View()), SuspendOp)
    {
      hide Queued, IndexOk, PlaceOk;
      StepInv(View(), SuspendOp);
      if threads[currentThread].stat != Running {
        return false;
      }
      RemoveThread(currentThread);
      threads := threads[currentThread := threads[currentThread].(stat := Suspended)];
      return true;
    }

    /** `rt_thread_resume`: false when the thread is not suspended. */
    method Resume(t: Tid) returns (ok: bool)
      requires Valid() && t in threads
      modifies this
      ensures ok <==> old(threads[t].stat == Suspended)
      ensures Valid() && View() == Step(old(View()), ResumeOp(t))
    {
      hide Queued, IndexOk, PlaceOk;
      StepInv(View(), ResumeOp(t));
      if threads[t].stat != Suspended {
        return false;
      }
      InsertThread(t);
      return true;
    }

    /** `_thread_exit`, up to its call of `rt_schedule`. */
    method ThreadExit()
      requires Valid() && threads[currentThread].stat == Running
      modifies this
      ensures Valid() && View() == Step(old(View()), CloseOp)
    {
      hide Queued, IndexOk, PlaceOk;
      StepInv(View(), CloseOp);
      RemoveThread(currentThread);
      threads := threads[currentThread := threads[currentThread].(stat := Closed)];
    }

    /** The flag `rt_thread_yield` and a used-up time slice set before `rt_schedule`. */
    method SetYield()
      requires Valid()
      modifies this`threads
      ensures Valid() && View() == Step(old(View()), YieldOp)
    {
      hide Queued, IndexOk, PlaceOk;
      StepInv(View(), YieldOp);
      threads := threads[currentThread := threads[currentThread].(yielding := true)];
    }

    /** The CHANGE_PRIORITY command of `rt_thread_control`: the places in the bitmap are
        recomputed, between leaving the old queue and joining the new one. */
    method ChangePriority(t: Tid, prio: nat)
      requires Valid() && t in threads && threads[t].stat != Init && prio < |priorityTable|
      modifies this
      ensures Valid() && View() == Step(old(View()), ChangePriorityOp(t, prio))
    {
      hide Queued, IndexOk, Without, Mask, PlaceOk, Step, Known;
      StepInv(View(), ChangePriorityOp(t, prio));
      ChangeStep(View(), t, prio);
      PlaceFits(prio);
      TableSize(priorityTable, readyTable, readyPriorityGroup);
      var ready := threads[t].stat == Ready;
      if ready {
        RemoveThread(t);
      }
      threads := threads[t := threads[t].(prio := prio)];
      places := places[t := Place(prio / 8, Mask(prio / 8), Mask(prio % 8))];
      if ready {
        InsertThread(t);
      }
    }

    /** `rt_enter_critical`. */
    method EnterCritical()
      requires Valid()
      modifies this`lockNest
      ensures Valid() && View() == Step(old(View()), EnterOp)
    {
      StepInv(View(), EnterOp);
      lockNest := lockNest + 1;
    }

    /** `rt_exit_critical`: true when a schedule is to follow. */
    method ExitCritical() returns (schedule: bool)
      requires Valid()
      modifies this`lockNest
      ensures Valid() && View() == Step(old(View()), ExitOp) && (schedule <==> lockNest == 0)
    {
      StepInv(View(), ExitOp);
      if lockNest > 0 {
        lockNest := lockNest - 1;
      }
      return lockNest == 0;
    }
  }

  lemma TableSize(queues: Queues, table: seq<Word>, group: Word)
    requires IndexOk(queues, table, group)
    ensures |table| == 32 && |queues| <= 256
  {
  }

  lemma TopExact(queues: seq<seq<Tid>>, p: nat)
    requires p < |queues| && queues[p] != [] && forall r :: 0 <= r < p ==> queues[r] == []
    ensures Top(queues) == p
  {
  }

  lemma NothingReady(queues: Queues, table: seq<Word>, group: Word)
    requires IndexOk(queues, table, group)
    ensures group == 0 <==> Top(queues) == |queues|
  {
    hide Has, ByteFfs, IndexOk;
    PickExact(queues, table, group);
  }

  lemma ChangeStep(s: State, t: Tid, prio: nat)
    requires Inv(s) && Enabled(s, ChangePriorityOp(t, prio))
    ensures Step(s, ChangePriorityOp(t, prio)) == SchedulerSpec.ChangePriority(s, t, prio)
  {
  }

  lemma PlaceFits(prio: nat)
    requires prio < 256
    ensures PlaceOk(Place(prio / 8, Mask(prio / 8), Mask(prio % 8)), prio)
  {
    hide Mask;
  }

  /** A schedule, case by case. */
  lemma ScheduleIs(s: State)
    requires Inv(s)
    ensures s.lockNest != 0 || Top(s.queues) == |s.queues| ==> Schedule(s) == s
    ensures s.lockNest == 0 && Top(s.queues) < |s.queues| ==>
      var c, to := s.threads[s.current], s.queues[Top(s.queues)][0];
      var s0 := if c.stat == Running then s.(threads := s.threads[s.current := c.(yielding := false)]) else s;
      var s1 := s0.(current := to);
      && to in s.threads && s.threads[to].prio < |s.queues|
      && if Stays(c, Top(s.queues)) then Schedule(s) == s0
         else Schedule(s) == SetStat(Remove(if c.stat == Running then Insert(s1, s.current) else s1, to), to, Running)
  {
    hide Queued, Insert, Remove, SetStat, Top;
    if Top(s.queues) < |s.queues| { HeadReady(s, Top(s.queues)); }
  }

  /** Removing a thread that is on no queue. */
  lemma NotQueued(s: State, t: Tid)
    requires Inv(s) && t in s.threads && s.threads[t].stat != Ready
    ensures s.queues[s.threads[t].prio := Without(s.queues[s.threads[t].prio], t)] == s.queues
  {
    WithoutAbsent(s.queues[s.threads[t].prio], t);
  }
}
