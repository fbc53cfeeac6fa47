/** The event object (rt-thread/src/ipc.c): each method is one interrupt-disabled section
    and performs the step of `EventProtocol` its contract names. */
module Event {
  import opened IpcThreads
  import opened Lists
  import opened EventProtocol

  datatype Outcome = Got | TimedOut | Waits | Refused

  class Event {
    const flag: Flag
    const prio: Tid -> nat
    var flags: Bits
    var suspendThread: seq<Tid>
    var threads: map<Tid, Thread>

    ghost function Cfg(): Config { Config(flag, prio) }

    ghost function View(): State
      reads this
    {
      State(flags, suspendThread, threads)
    }

    ghost predicate Valid()
      reads this
    {
      Inv(Cfg(), View())
    }

    /** `rt_event_init`. */
    constructor (flag: Flag, prio: Tid -> nat, ids: set<Tid>)
      ensures Valid() && Initial(View()) && threads.Keys == ids
      ensures this.flag == flag && this.prio == prio
    {
      this.flag, this.prio := flag, prio;
      flags := {};
      suspendThread := [];
      threads := map t | t in ids :: Thread(Active, Info(false, false, false), {}, {});
    }

    /** `rt_event_send`: set the flags, then walk the queue once and resume everyone whose
        condition holds when they are reached.  An empty set is refused. */
    method Send(bits: Bits) returns (ok: bool)
      requires Valid()
      modifies this
      ensures ok <==> bits != {}
      ensures Valid() && View() == if ok then Step(Cfg(), old(View()), SendOp(bits)) else old(View())
    {
      if bits == {} {
        return false;
      }
      SendInv(Cfg(), View(), bits);
      flags := flags + bits;
      Walk();
      return true;
    }

    /** The loop of `rt_event_send`.  Every waiter waits with AND or OR, so the branch that
        returns -RT_EINVAL is never taken. */
    method Walk()
      requires Distinct(suspendThread)
      requires forall t :: t in suspendThread ==> t in threads && (threads[t].info.and || threads[t].info.or)
      modifies this
      ensures View() == var r := Sweep(old(flags), old(suspendThread), old(threads)); State(r.flags, r.left, r.threads)
    {
      ghost var r := Sweep(flags, suspendThread, threads);
      assert suspendThread[0..] == suspendThread;
      var n := 0;
      while n < |suspendThread|
        invariant n <= |suspendThread| && Distinct(suspendThread)
        invariant forall t :: t in suspendThread ==> t in threads && (threads[t].info.and || threads[t].info.or)
        invariant var now := Sweep(flags, suspendThread[n..], threads);
          r == Swept(now.flags, suspendThread[..n] + now.left, now.threads)
        decreases |suspendThread| - n
      {
        SweepNext(flags, suspendThread, n, threads);
        var t := suspendThread[n];
        var w := threads[t];
        var met := false;
        if w.info.and {
          if w.want * flags == w.want {
            met := true;
          }
        } else if w.info.or {
          if w.want * flags != {} {
            w := w.(want := w.want * flags);
            met := true;
          }
        } else {
          assert false;
        }
        if met {
          if w.info.clear {
            flags := flags - w.want;
          }
          threads := threads[t := w.(status := Resumed(EOK))];
          DropAt(suspendThread, n);
          suspendThread := suspendThread[..n] + suspendThread[n + 1..];
        } else {
          n := n + 1;
        }
      }
    }

    /** `rt_event_recv` up to the point where it returns or suspends; asking for no flag is
        refused, and asking without AND and OR is an assertion of the source. */
    method Recv(t: Tid, bits: Bits, info: Info, noWait: bool) returns (r: Outcome, got: Bits)
      requires Valid() && t in threads && threads[t].status == Active && (info.and || info.or)
      modifies this
      ensures Valid() && (r == Refused <==> bits == {})
      ensures View() == if r == Refused then old(View()) else Step(Cfg(), old(View()), RecvOp(t, bits, info, noWait))
      ensures r != Refused ==>
        r == if Satisfied(info, bits, old(flags)) then Got else if noWait then TimedOut else Waits
      ensures r == Got ==> Answers(info, bits, got) && got <= old(flags) && flags == Consume(info, got, old(flags))
      ensures t in threads && (r == Waits <==> threads[t].status.Suspended?)
    {
      got := {};
      if bits == {} {
        return Refused, got;
      }
      RecvInv(Cfg(), View(), t, bits, info, noWait);
      var met := false;
      if info.and {
        if flags * bits == bits {
          met := true;
        }
      } else if info.or {
        if flags * bits != {} {
          met := true;
        }
      }
      if met {
        got := flags * bits;
        threads := threads[t := Thread(Active, info, bits, flags * bits)];
        if info.clear {
          flags := flags - bits;
        }
        return Got, got;
      }
      if noWait {
        return TimedOut, got;
      }
      threads := threads[t := Thread(Status.Suspended, info, bits, bits)];
      suspendThread := ListSuspend(suspendThread, t, flag, prio);
      return Waits, got;
    }

    /** The rest of `rt_event_recv`, run by a resumed thread: its error, or flags that
        answer what it asked for. */
    method Return(t: Tid) returns (error: int, got: Bits)
      requires Valid() && Enabled(View(), ReturnOp(t))
      modifies this
      ensures Valid() && View() == Step(Cfg(), old(View()), ReturnOp(t))
      ensures error == old(threads)[t].status.error
      ensures error == EOK ==> Answers(old(threads)[t].info, old(threads)[t].asked, got)
    {
      StepInv(Cfg(), View(), ReturnOp(t));
      error := threads[t].status.error;
      got := if error == EOK then threads[t].want else {};
      threads := threads[t := threads[t].(status := Active)];
    }

    /** `_thread_timeout` for a thread suspended on this event. */
    method ThreadTimeout(t: Tid)
      requires Valid() && Enabled(View(), TimeoutOp(t))
      modifies this
      ensures Valid() && View() == Step(Cfg(), old(View()), TimeoutOp(t))
    {
      StepInv(Cfg(), View(), TimeoutOp(t));
      suspendThread := Without(suspendThread, t);
      threads := threads[t := threads[t].(status := Resumed(ETIMEOUT))];
    }

    /** The reset command of `rt_event_control`. */
    method Reset()
      requires Valid()
      modifies this
      ensures Valid() && View() == Step(Cfg(), old(View()), ResetOp)
    {
      StepInv(Cfg(), View(), ResetOp);
      ResumeAll();
      flags := {};
    }

    /** `_ipc_list_resume_all`: pop and resume until the queue is empty. */
    method ResumeAll()
      requires Distinct(suspendThread) && forall t :: t in suspendThread ==> t in threads
      modifies this`suspendThread, this`threads
      ensures suspendThread == [] && threads == FailAll(old(threads), old(suspendThread))
    {
      while suspendThread != []
        invariant Distinct(suspendThread) && forall t :: t in suspendThread ==> t in threads
        invariant FailAll(threads, suspendThread) == FailAll(old(threads), old(suspendThread))
        decreases |suspendThread|
      {
        TailMembers(suspendThread);
        var t := suspendThread[0];
        threads := threads[t := threads[t].(status := Resumed(ERROR))];
        suspendThread := suspendThread[1..];
      }
    }
  }

  /** One turn of the sweep, seen from the middle of the queue. */
  lemma SweepNext(flags: Bits, l: seq<Tid>, n: nat, threads: map<Tid, Thread>)
    requires n < |l| && forall t :: t in l ==> t in threads
    ensures l[n] in threads && l[n..] == [l[n]] + l[n + 1..]
    ensures var w := threads[l[n]]; var now := Sweep(flags, l[n..], threads);
      if Satisfied(w.info, w.want, flags) then
        now == Sweep(Consume(w.info, Taken(w.info, w.want, flags), flags), l[n + 1..], threads[l[n] := Wake(w, flags)])
      else
        var r := Sweep(flags, l[n + 1..], threads);
        && now == r.(left := [l[n]] + r.left)
        && l[..n] + now.left == l[..n + 1] + r.left
  {
    assert l[n] in l && l[n..][1..] == l[n + 1..];
  }

  lemma DropAt(l: seq<Tid>, n: nat)
    requires n < |l| && Distinct(l)
    ensures var r := l[..n] + l[n + 1..];
      && Distinct(r) && r[..n] == l[..n] && r[n..] == l[n + 1..]
      && (forall t :: t in r ==> t in l && t != l[n])
  {
    var r := l[..n] + l[n + 1..];
    assert forall i :: 0 <= i < |r| ==> r[i] == l[if i < n then i else i + 1];
  }
}
