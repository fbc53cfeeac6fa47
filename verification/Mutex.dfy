/** The mutex object (rt-thread/src/ipc.c).  Each method is one interrupt-disabled section
    and does to the mutex and to the thread table what `MutexProtocol` says of the call. */
module Mutex {
  import opened IpcThreads
  import opened Lists
  import opened Wrappers
  import P = MutexProtocol

  const VALUE_MAX := 0xffff

  /** Priorities and run states, shared by all mutexes. */
  class ThreadTable {
    var threads: P.Threads

    constructor (threads: P.Threads)
      ensures this.threads == threads
    {
      this.threads := threads;
    }

    /** The CHANGE_PRIORITY command of `rt_thread_control`, as far as a mutex is concerned. */
    method ChangePriority(t: Tid, prio: nat)
      requires t in threads
      modifies this
      ensures threads == old(threads)[t := old(threads)[t].(prio := prio)]
    {
      threads := threads[t := threads[t].(prio := prio)];
    }

    method SetStatus(t: Tid, status: P.Status)
      requires t in threads
      modifies this
      ensures threads == old(threads)[t := old(threads)[t].(status := status)]
    {
      threads := threads[t := threads[t].(status := status)];
    }
  }

  class Mutex {
    const id: P.Mid
    const table: ThreadTable
    var value: nat
    var owner: Option<Tid>
    var hold: nat
    var originalPriority: nat
    var suspendThread: seq<Tid>

    ghost function View(): P.Mutex
      reads this
    {
      P.Mutex(value, owner, hold, originalPriority, suspendThread)
    }

    ghost predicate Sane()
      reads this, table
    {
      P.Sane(View(), table.threads)
    }

    /** `rt_mutex_init`; the flag argument is ignored, waiters always queue by priority. */
    constructor (id: P.Mid, table: ThreadTable)
      ensures this.id == id && this.table == table
      ensures View() == P.Mutex(1, None, 0, P.NO_PRIORITY, []) && Sane()
    {
      this.id, this.table := id, table;
      value, owner, hold, originalPriority := 1, None, 0, P.NO_PRIORITY;
      suspendThread := [];
    }

    /** `rt_mutex_take` up to the point where it returns or suspends. */
    method Take(t: Tid, noWait: bool) returns (r: P.Outcome)
      requires Sane() && t in table.threads
      modifies this, table
      ensures r == P.TakeResult(old(View()), t, noWait)
      ensures r == P.Taken <==> owner == Some(t) && hold == old(hold) + 1
      ensures r == P.Waits ==>
        t in suspendThread && t in table.threads && table.threads[t].status == P.Blocked(id)
      ensures (View(), table.threads) == P.Take(id, old(View()), old(table.threads), t, noWait)
    {
      if owner == Some(t) {
        if hold < P.HOLD_MAX {
          hold := hold + 1;
          return P.Taken;
        }
        return P.Full;
      }
      if value > 0 {
        value := value - 1;
        owner := Some(t);
        originalPriority := table.threads[t].prio;
        assert hold < P.HOLD_MAX;
        hold := hold + 1;
        return P.Taken;
      }
      if noWait {
        return P.TimedOut;
      }
      if table.threads[t].prio < table.threads[owner.value].prio {
        table.ChangePriority(owner.value, table.threads[t].prio);
      }
      EnqueueMembers(suspendThread, t, Prio, P.PrioOf(table.threads));
      suspendThread := ListSuspend(suspendThread, t, Prio, P.PrioOf(table.threads));
      table.SetStatus(t, P.Blocked(id));
      return P.Waits;
    }

    /** `rt_mutex_release`: false when t is not the owner. */
    method Release(t: Tid) returns (ok: bool)
      requires Sane()
      modifies this, table
      ensures ok <==> old(owner) == Some(t)
      ensures (View(), table.threads) == P.Release(old(View()), old(table.threads), t)
    {
      if owner != Some(t) {
        return false;
      }
      hold := hold - 1;
      if hold == 0 {
        if originalPriority != table.threads[t].prio {
          table.ChangePriority(t, originalPriority);
        } else {
          assert table.threads[t := table.threads[t].(prio := originalPriority)] == table.threads;
        }
        if suspendThread != [] {
          var head := suspendThread[0];
          owner := Some(head);
          originalPriority := table.threads[head].prio;
          hold := hold + 1;
          suspendThread := suspendThread[1..];
          table.SetStatus(head, P.Resumed(EOK));
        } else {
          assert value < VALUE_MAX;
          value := value + 1;
          owner := None;
          originalPriority := P.NO_PRIORITY;
        }
      }
      return true;
    }

    /** `_thread_timeout` for a thread suspended on this mutex. */
    method ThreadTimeout(t: Tid)
      requires t in table.threads
      modifies this`suspendThread, table
      ensures (View(), table.threads) == P.Timeout(old(View()), old(table.threads), t)
      ensures table.threads == old(table.threads)[t := old(table.threads)[t].(status := P.Resumed(ETIMEOUT))]
    {
      suspendThread := Without(suspendThread, t);
      table.SetStatus(t, P.Resumed(ETIMEOUT));
    }
  }
}
