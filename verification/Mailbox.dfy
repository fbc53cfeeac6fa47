/** The mailbox object: a ring of words with two offsets and a count, and two queues of
    suspended threads (rt-thread/src/ipc.c).  Each method is one interrupt-disabled
    section and performs the step of `MailboxProtocol` its contract names. */
module Mailbox {
  import opened IpcThreads
  import opened Lists
  import opened MailboxProtocol

  const ENTRY_MAX := 0xffff

  /** What the caller sees when the section ends: a result, or that it now waits. */
  datatype Outcome = Done | Full | Empty | Waits

  class Mailbox {
    const msgPool: array<Msg>
    const flag: Flag
    const prio: Tid -> nat
    var entry: nat
    var inOffset: nat
    var outOffset: nat
    var suspendThread: seq<Tid>
    var suspendSender: seq<Tid>
    var phase: map<Tid, Phase>
    ghost var sent: seq<Msg>
    ghost var received: seq<Msg>

    ghost function Size(): nat { msgPool.Length }

    ghost function Cfg(): Config { Config(msgPool.Length, flag, prio) }

    /** The mail waiting, oldest first. */
    ghost function Contents(): seq<Msg>
      reads this, msgPool
      requires RingOk()
    {
      Ring(msgPool[..], outOffset, entry)
    }

    /** The offsets delimit the mail: input is `entry` slots after output, wrapping. */
    ghost predicate RingOk()
      reads this
    {
      && entry <= msgPool.Length <= ENTRY_MAX
      && (msgPool.Length > 0 ==> outOffset < msgPool.Length && inOffset == Wrap(outOffset + entry, msgPool.Length))
    }

    ghost function View(): State
      reads this, msgPool
      requires RingOk()
    {
      State(Contents(), suspendThread, suspendSender, phase, sent, received)
    }

    ghost predicate Valid()
      reads this, msgPool
    {
      RingOk() && Inv(Cfg(), View())
    }

    /** `rt_mb_init`. */
    constructor (pool: array<Msg>, flag: Flag, prio: Tid -> nat, threads: set<Tid>)
      requires pool.Length <= ENTRY_MAX
      ensures Valid() && View() == Start(threads)
      ensures msgPool == pool && this.flag == flag && this.prio == prio
    {
      msgPool := pool;
      this.flag := flag;
      this.prio := prio;
      entry, inOffset, outOffset := 0, 0, 0;
      suspendThread, suspendSender := [], [];
      phase := map t | t in threads :: Running;
      sent, received := [], [];
    }

    /** One pass of `rt_mb_send_wait`: from the check of `entry` to the next point where
        interrupts are enabled. */
    method Send(t: Tid, value: Msg, noWait: bool) returns (r: Outcome)
      requires Valid() && MayTry(View(), t, Sender, value)
      modifies this, msgPool
      ensures Valid() && View() == Step(Cfg(), old(View()), SendOp(t, value, noWait))
      ensures r == if |old(Contents())| < Size() then Done else if noWait then Full else Waits
      ensures t in phase && (r == Waits <==> phase[t].Suspended?)
    {
      hide Inv;
      SendInv(Cfg(), View(), t, value, noWait);
      if entry == msgPool.Length {
        if noWait {
          phase := phase[t := Running];
          return Full;
        }
        suspendSender := ListSuspend(suspendSender, t, flag, prio);
        phase := phase[t := Suspended(Sender, value)];
        return Waits;
      }
      phase := phase[t := Running];
      Put(value);
      ResumeReceiver();
      return Done;
    }

    /** The ring half of a send; the count cannot overflow, so the source's check of the
        16-bit limit always passes. */
    method Put(value: Msg)
      requires RingOk() && entry < msgPool.Length
      modifies this`entry, this`inOffset, this`sent, msgPool
      ensures RingOk() && Contents() == old(Contents()) + [value] && sent == old(sent) + [value]
    {
      RingAppend(msgPool[..], outOffset, entry, value);
      msgPool[inOffset] := value;
      inOffset := inOffset + 1;
      if inOffset >= msgPool.Length {
        inOffset := 0;
      }
      assert entry < ENTRY_MAX;
      entry := entry + 1;
      sent := sent + [value];
    }

    /** `rt_mb_urgent`: step the output offset back and write in front. */
    method Urgent(value: Msg) returns (r: Outcome)
      requires Valid()
      modifies this, msgPool
      ensures Valid() && View() == Step(Cfg(), old(View()), UrgentOp(value))
      ensures r == if |old(Contents())| < Size() then Done else Full
      ensures r == Done ==> Contents() == [value] + old(Contents())
    {
      UrgentInv(Cfg(), View(), value);
      if entry == msgPool.Length {
        return Full;
      }
      PutFront(value);
      ResumeReceiver();
      return Done;
    }

    method PutFront(value: Msg)
      requires RingOk() && entry < msgPool.Length
      modifies this`entry, this`outOffset, this`sent, msgPool
      ensures RingOk() && Contents() == [value] + old(Contents()) && sent == old(sent) + [value]
    {
      RingPrepend(msgPool[..], outOffset, entry, value);
      if outOffset > 0 {
        outOffset := outOffset - 1;
      } else {
        outOffset := msgPool.Length - 1;
      }
      msgPool[outOffset] := value;
      entry := entry + 1;
      sent := sent + [value];
    }

    /** One pass of `rt_mb_recv`. */
    method Recv(t: Tid, noWait: bool) returns (r: Outcome, value: Msg)
      requires Valid() && MayTry(View(), t, Receiver, 0)
      modifies this
      ensures Valid() && View() == Step(Cfg(), old(View()), RecvOp(t, noWait))
      ensures r == if old(Contents()) != [] then Done else if noWait then Empty else Waits
      ensures t in phase && (r == Waits <==> phase[t].Suspended?)
      ensures r == Done ==> value == old(Contents())[0]
    {
      hide Inv;
      RecvInv(Cfg(), View(), t, noWait);
      value := 0;
      if entry == 0 {
        if noWait {
          phase := phase[t := Running];
          return Empty, value;
        }
        suspendThread := ListSuspend(suspendThread, t, flag, prio);
        phase := phase[t := Suspended(Receiver, 0)];
        return Waits, value;
      }
      phase := phase[t := Running];
      value := Take();
      if suspendSender != [] {
        var head := suspendSender[0];
        suspendSender := suspendSender[1..];
        phase := phase[head := Woken(phase[head].role, phase[head].value, EOK)];
      }
      return Done, value;
    }

    method Take() returns (value: Msg)
      requires RingOk() && entry > 0
      modifies this`entry, this`outOffset, this`received
      ensures RingOk() && old(Contents()) == [value] + Contents() && received == old(received) + [value]
    {
      RingTake(msgPool[..], outOffset, entry);
      value := msgPool[outOffset];
      outOffset := outOffset + 1;
      if outOffset >= msgPool.Length {
        outOffset := 0;
      }
      entry := entry - 1;
      received := received + [value];
    }

    /** `_ipc_list_resume` on the receivers, when there are any. */
    method ResumeReceiver()
      requires HeadWaits(suspendThread, phase)
      modifies this`suspendThread, this`phase
      ensures suspendThread == Rest(old(suspendThread)) && phase == WakeHead(old(phase), old(suspendThread))
    {
      if suspendThread != [] {
        var head := suspendThread[0];
        suspendThread := suspendThread[1..];
        phase := phase[head := Woken(phase[head].role, phase[head].value, EOK)];
      }
    }

    /** The return path of a thread that resumed with an error. */
    method ReturnError(t: Tid) returns (error: int)
      requires Valid() && Enabled(View(), FailOp(t))
      modifies this
      ensures Valid() && View() == Step(Cfg(), old(View()), FailOp(t))
      ensures error == old(phase)[t].error != EOK
    {
      StepInv(Cfg(), View(), FailOp(t));
      error := phase[t].error;
      phase := phase[t := Running];
    }

    /** `_thread_timeout` for a thread suspended on this mailbox. */
    method ThreadTimeout(t: Tid)
      requires Valid() && Enabled(View(), TimeoutOp(t))
      modifies this
      ensures Valid() && View() == Step(Cfg(), old(View()), TimeoutOp(t))
    {
      StepInv(Cfg(), View(), TimeoutOp(t));
      if phase[t].role == Receiver {
        suspendThread := Without(suspendThread, t);
      } else {
        suspendSender := Without(suspendSender, t);
      }
      phase := phase[t := Woken(phase[t].role, phase[t].value, ETIMEOUT)];
    }

    /** The reset command of `rt_mb_control`. */
    method Reset()
      requires Valid()
      modifies this
      ensures Valid() && View() == Step(Cfg(), old(View()), ResetOp)
    {
      ResetInv(Cfg(), View());
      ResumeBoth();
      entry, inOffset, outOffset := 0, 0, 0;
      assert Contents() == [];
    }

    method ResumeBoth()
      requires WaitersOk(suspendThread, phase, Receiver) && WaitersOk(suspendSender, phase, Sender)
      modifies this`suspendThread, this`suspendSender, this`phase
      ensures suspendThread == [] == suspendSender
      ensures phase == ResumeAll(ResumeAll(old(phase), old(suspendThread)), old(suspendSender))
    {
      phase := ResumeEveryone(suspendThread, phase);
      suspendThread := [];
      phase := ResumeEveryone(suspendSender, phase);
      suspendSender := [];
    }
  }

  // ------------------------------------------------------------------- the ring

  function Wrap(i: nat, n: nat): nat {
    if i < n then i else i - n
  }

  /** The n words from offset `out` on, wrapping at the end of the pool. */
  function Ring(pool: seq<Msg>, out: nat, n: nat): seq<Msg>
    requires n <= |pool| && (n > 0 ==> out < |pool|)
  {
    seq(n, i requires 0 <= i < n => pool[Wrap(out + i, |pool|)])
  }

  lemma RingAt(pool: seq<Msg>, out: nat, n: nat, i: nat)
    requires i < n <= |pool| && out < |pool|
    ensures Ring(pool, out, n)[i] == pool[Wrap(out + i, |pool|)]
  {
  }

  /** Writing at the input offset appends. */
  lemma RingAppend(pool: seq<Msg>, out: nat, n: nat, v: Msg)
    requires n < |pool| && out < |pool|
    ensures Ring(pool[Wrap(out + n, |pool|) := v], out, n + 1) == Ring(pool, out, n) + [v]
  {
    var at := Wrap(out + n, |pool|);
    var pool' := pool[at := v];
    var l, r := Ring(pool', out, n + 1), Ring(pool, out, n) + [v];
    forall i | 0 <= i < n + 1 ensures l[i] == r[i] {
      RingAt(pool', out, n + 1, i);
      if i < n {
        RingAt(pool, out, n, i);
        assert Wrap(out + i, |pool|) != at;
      }
    }
  }

  /** Writing just before the output offset puts in front. */
  lemma RingPrepend(pool: seq<Msg>, out: nat, n: nat, v: Msg)
    requires n < |pool| && out < |pool|
    ensures var back := if out > 0 then out - 1 else |pool| - 1;
      Ring(pool[back := v], back, n + 1) == [v] + Ring(pool, out, n)
  {
    var back := if out > 0 then out - 1 else |pool| - 1;
    var pool' := pool[back := v];
    var l, r := Ring(pool', back, n + 1), [v] + Ring(pool, out, n);
    forall i | 0 <= i < n + 1 ensures l[i] == r[i] {
      RingAt(pool', back, n + 1, i);
      if i > 0 {
        RingAt(pool, out, n, i - 1);
        assert Wrap(back + i, |pool|) == Wrap(out + (i - 1), |pool|) != back;
      }
    }
  }

  /** Stepping the output offset drops the oldest word. */
  lemma RingTake(pool: seq<Msg>, out: nat, n: nat)
    requires 0 < n <= |pool| && out < |pool|
    ensures Ring(pool, out, n) == [pool[out]] + Ring(pool, Wrap(out + 1, |pool|), n - 1)
  {
    var on := Wrap(out + 1, |pool|);
    var l, r := Ring(pool, out, n), [pool[out]] + Ring(pool, on, n - 1);
    forall i | 0 <= i < n ensures l[i] == r[i] {
      RingAt(pool, out, n, i);
      if i > 0 { RingAt(pool, on, n - 1, i - 1); }
    }
  }
}
