/** The order of plain and urgent mail (rt-thread/src/ipc.c), as an onlooker of a mailbox or a
    message queue would write it down: plain mail goes in at the end, urgent mail at the
    front, and whoever receives takes the first. */
module MailOrder {
  import opened IpcThreads

  datatype Mail = Mail(v: Msg, urgent: bool)

  /** Since the last reset: what is in the box, each with its mark; the plain mail put in; and
      the plain mail taken out. */
  datatype Log = Log(mail: seq<Mail>, posted: seq<Msg>, taken: seq<Msg>)

  const EMPTY := Log([], [], [])

  function Posted(log: Log, v: Msg, urgent: bool): Log {
    if urgent then log.(mail := [Mail(v, true)] + log.mail)
    else log.(mail := log.mail + [Mail(v, false)], posted := log.posted + [v])
  }

  function Taken(log: Log): Log {
    if log.mail == [] then log
    else log.(mail := log.mail[1..], taken := if log.mail[0].urgent then log.taken else log.taken + [log.mail[0].v])
  }

  function Values(l: seq<Mail>): (r: seq<Msg>)
    ensures |r| == |l|
  {
    seq(|l|, i requires 0 <= i < |l| => l[i].v)
  }

  /** The plain mail among it, in its order. */
  function Plain(l: seq<Mail>): seq<Msg> {
    if l == [] then [] else (if l[0].urgent then [] else [l[0].v]) + Plain(l[1..])
  }

  ghost predicate UrgentAhead(l: seq<Mail>) {
    forall i, j :: 0 <= i < j < |l| && l[j].urgent ==> l[i].urgent
  }

  /** The log tells what is queued; plain mail comes out in the order it went in, none lost and
      none twice; and urgent mail stands in front of all of it. */
  ghost predicate InOrder(log: Log, queue: seq<Msg>) {
    && Values(log.mail) == queue
    && log.posted == log.taken + Plain(log.mail)
    && UrgentAhead(log.mail)
  }

  lemma {:induction false} PlainConcat(a: seq<Mail>, b: seq<Mail>)
    ensures Plain(a + b) == Plain(a) + Plain(b)
  {
    if a == [] {
      assert a + b == b;
    } else {
      assert (a + b)[1..] == a[1..] + b;
      PlainConcat(a[1..], b);
    }
  }

  lemma EmptyInOrder()
    ensures InOrder(EMPTY, [])
  {
  }

  lemma PostedInOrder(log: Log, queue: seq<Msg>, v: Msg, urgent: bool)
    requires InOrder(log, queue)
    ensures InOrder(Posted(log, v, urgent), if urgent then [v] + queue else queue + [v])
  {
    var m := Mail(v, urgent);
    assert Plain([m]) == if urgent then [] else [v] by { assert [m][1..] == []; }
    if urgent {
      PlainConcat([m], log.mail);
      assert Plain([m] + log.mail) == Plain(log.mail);
    } else {
      PlainConcat(log.mail, [m]);
      assert log.posted + [v] == log.taken + (Plain(log.mail) + [v]);
    }
    assert Values(Posted(log, v, urgent).mail) == if urgent then [v] + queue else queue + [v];
  }

  lemma TakenInOrder(log: Log, queue: seq<Msg>)
    requires InOrder(log, queue)
    ensures InOrder(Taken(log), if queue == [] then [] else queue[1..])
  {
    if queue != [] {
      var m := log.mail[0];
      assert Values(log.mail[1..]) == queue[1..];
      assert !m.urgent ==> log.taken + ([m.v] + Plain(log.mail[1..])) == log.taken + [m.v] + Plain(log.mail[1..]);
    }
  }
}
