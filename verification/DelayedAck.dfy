/** The delayed-acknowledgement state machine shared by the receive path and the timer
    thread (section 4.2.3.2 of RFC 1122), for one connection. */
module DelayedAck {
  import opened TouTypes

  const PROMPT_ACK_TIME: int := 500
  const DELAYED_ACK_TIME: int := 200

  datatype DelState = DEL_ERR | DEL_XMIT | DEL_QUE | DEL_QUEXMIT | DEL_EXPXMIT | DEL_IMMED

  datatype AckNode = AckNode(pId: nat, pushMs: int, nagleMs: int)

  /** t_delack_state and the connection's nodes in ackdeque. */
  datatype Delack = Delack(st: DelState, nodes: seq<AckNode>)

  function FreshNode(rcvNxt: nat, t: int): AckNode {
    AckNode(rcvNxt, t + PROMPT_ACK_TIME, t + DELAYED_ACK_TIME)
  }

  /** timerMng::update_ack; None is its exit(1). */
  function UpdateAck(nodes: seq<AckNode>, xmit: bool, rcvNxt: nat, t: int): Option<seq<AckNode>> {
    if nodes != [] then Some(nodes[0 := FreshNode(rcvNxt, t)])
    else if xmit then Some([FreshNode(rcvNxt, t)])
    else None
  }

  /** processTou::proc_delack: the new state and whether an ack went out; None is an exit(1). */
  function ProcDelack(d: Delack, rcvNxt: nat, t: int): Option<(Delack, bool)> {
    match d.st
    case DEL_ERR => None
    case DEL_QUE =>
      var n := UpdateAck(d.nodes, false, rcvNxt, t);
      if n.None? then None else Some((Delack(DEL_XMIT, n.value), false))
    case _ =>
      var n := UpdateAck(d.nodes, true, rcvNxt, t);
      if n.None? then None else Some((Delack(DEL_QUE, n.value), true))
  }

  /** timerCk::proc_delack_xmit on node i; None is a failed assertion or an exit(1). */
  function DelackXmit(d: Delack, i: nat, rcvNxt: nat, t: int): Option<(Delack, bool)>
    requires i < |d.nodes|
  {
    var n := d.nodes[i];
    match d.st
    case DEL_IMMED => Some((d, false))
    case DEL_ERR => None
    case DEL_XMIT =>
      if n.nagleMs >= t then Some((d, false))
      else if rcvNxt < n.pId then None
      else Some((Delack(DEL_QUEXMIT, d.nodes[i := FreshNode(rcvNxt, t)]), true))
    case _ =>
      if n.pushMs >= t then Some((d, false))
      else if rcvNxt < n.pId then None
      else Some((Delack(DEL_EXPXMIT, d.nodes[i := FreshNode(rcvNxt, t)]), true))
  }

  /** timerCk::proc_delack from node i on: the new state and the number of acks sent. */
  function TimerPass(d: Delack, i: nat, rcvNxt: nat, t: int): (r: Option<(Delack, nat)>)
    requires i <= |d.nodes|
    decreases |d.nodes| - i
  {
    if i == |d.nodes| then Some((d, 0))
    else
      var x := DelackXmit(d, i, rcvNxt, t);
      if x.None? then None
      else
        var rest := TimerPass(x.value.0, i + 1, rcvNxt, t);
        if rest.None? then None
        else Some((rest.value.0, rest.value.1 + if x.value.1 then 1 else 0))
  }

  const INIT_DELACK := Delack(DEL_XMIT, [])

  /** At most one node; none only before the first ack; and no node runs ahead of rcv_nxt. */
  ghost predicate DelInv(d: Delack, rcvNxt: nat) {
    && d.st != DEL_ERR
    && |d.nodes| <= 1
    && (d.nodes == [] ==> d.st == DEL_XMIT || d.st == DEL_IMMED)
    && (d.nodes != [] ==> d.nodes[0].pId <= rcvNxt)
  }

  datatype DelEvent =
    | ProcStep(t: int)     // run reaches proc_delack
    | Timer(t: int)        // the timer thread scans the deque
    | Force                // out-of-order data or a recovery asks for an immediate ack
    | Received(n: nat)     // rcv_nxt moves forward by n bytes

  /** (state, rcv_nxt, acks sent); None is an exit of the process. */
  function DelNext(d: Delack, rcvNxt: nat, e: DelEvent): Option<(Delack, nat, nat)> {
    match e
    case ProcStep(t) =>
      var x := ProcDelack(d, rcvNxt, t);
      if x.None? then None else Some((x.value.0, rcvNxt, if x.value.1 then 1 else 0))
    case Timer(t) =>
      var x := TimerPass(d, 0, rcvNxt, t);
      if x.None? then None else Some((x.value.0, rcvNxt, x.value.1))
    case Force => Some((d.(st := DEL_IMMED), rcvNxt, 0))
    case Received(n) => Some((d, rcvNxt + n, 0))
  }

  lemma TimerPassOne(d: Delack, rcvNxt: nat, t: int)
    requires DelInv(d, rcvNxt)
    ensures var r := TimerPass(d, 0, rcvNxt, t);
            r.Some? && DelInv(r.value.0, rcvNxt)
            && (r.value.0.st == DEL_QUE ==> d.st == DEL_QUE) && (d.st == DEL_IMMED <==> r.value.0.st == DEL_IMMED)
            && (d.nodes == [] <==> r.value.0.nodes == [])
            && r.value.1 <= 1
            && (r.value.1 == 1 <==>
                  d.nodes != [] && d.st != DEL_IMMED
                  && (if d.st == DEL_XMIT then d.nodes[0].nagleMs < t else d.nodes[0].pushMs < t))
            && r.value.0 == if r.value.1 == 0 then d
                            else Delack(if d.st == DEL_XMIT then DEL_QUEXMIT else DEL_EXPXMIT,
                                        [AckNode(rcvNxt, t + 500, t + 200)])
  {
    if d.nodes != [] {
      var x := DelackXmit(d, 0, rcvNxt, t);
      assert TimerPass(x.value.0, 1, rcvNxt, t) == Some((x.value.0, 0));
    }
  }

  lemma DelStepInv(d: Delack, rcvNxt: nat, e: DelEvent)
    requires DelInv(d, rcvNxt)
    ensures var r := DelNext(d, rcvNxt, e);
            r.Some? && DelInv(r.value.0, r.value.1)
  {
    if e.Timer? {
      TimerPassOne(d, rcvNxt, e.t);
    }
  }

  function DelRun(d: Delack, rcvNxt: nat, es: seq<DelEvent>): Option<(Delack, nat, nat)>
    decreases |es|
  {
    if es == [] then Some((d, rcvNxt, 0))
    else
      var x := DelNext(d, rcvNxt, es[0]);
      if x.None? then None
      else
        var y := DelRun(x.value.0, x.value.1, es[1..]);
        if y.None? then None else Some((y.value.0, y.value.1, x.value.2 + y.value.2))
  }

  /** No interleaving of receive steps, timer scans and forced states reaches an error exit or
      the assertion in sendack. */
  lemma {:induction false} DelayedAckNeverExits(d: Delack, rcvNxt: nat, es: seq<DelEvent>)
    requires DelInv(d, rcvNxt)
    ensures var r := DelRun(d, rcvNxt, es);
            r.Some? && DelInv(r.value.0, r.value.1) && rcvNxt <= r.value.1
    decreases |es|
  {
    if es != [] {
      DelStepInv(d, rcvNxt, es[0]);
      var x := DelNext(d, rcvNxt, es[0]);
      DelayedAckNeverExits(x.value.0, x.value.1, es[1..]);
    }
  }

  lemma {:induction false} StaysDue(d: Delack, rcvNxt: nat, es: seq<DelEvent>)
    requires DelInv(d, rcvNxt) && d.st != DEL_QUE
    requires forall i :: 0 <= i < |es| ==> !es[i].ProcStep?
    ensures var r := DelRun(d, rcvNxt, es);
            r.Some? && DelInv(r.value.0, r.value.1) && r.value.0.st != DEL_QUE
    decreases |es|
  {
    if es != [] {
      DelStepInv(d, rcvNxt, es[0]);
      if es[0].Timer? {
        TimerPassOne(d, rcvNxt, es[0].t);
      }
      var x := DelNext(d, rcvNxt, es[0]);
      StaysDue(x.value.0, x.value.1, es[1..]);
    }
  }

  /** Of two successive proc_delack calls, whatever happens in between, at least one transmits. */
  lemma AckEverySecond(d: Delack, rcvNxt: nat, t1: int, es: seq<DelEvent>, t2: int)
    requires DelInv(d, rcvNxt)
    requires forall i :: 0 <= i < |es| ==> !es[i].ProcStep?
    ensures var a := DelNext(d, rcvNxt, ProcStep(t1));
            a.Some? && var b := DelRun(a.value.0, a.value.1, es);
                       b.Some? && var c := DelNext(b.value.0, b.value.1, ProcStep(t2));
                                  c.Some? && (a.value.2 == 1 || c.value.2 == 1)
  {
    DelStepInv(d, rcvNxt, ProcStep(t1));
    var a := DelNext(d, rcvNxt, ProcStep(t1));
    DelayedAckNeverExits(a.value.0, a.value.1, es);
    if a.value.2 == 0 {
      StaysDue(a.value.0, a.value.1, es);
    }
    var b := DelRun(a.value.0, a.value.1, es);
    DelStepInv(b.value.0, b.value.1, ProcStep(t2));
  }

  /** An ack queued at t1 goes out on a timer scan exactly when more than 200 ms have passed. */
  lemma QueuedAckGoesOutIff(d: Delack, rcvNxt: nat, t1: int, n: nat, t2: int)
    requires DelInv(d, rcvNxt) && d.st == DEL_QUE
    ensures var a := DelNext(d, rcvNxt, ProcStep(t1));
            a.Some? && a.value.2 == 0
            && var b := DelNext(a.value.0, rcvNxt + n, Timer(t2));
               b.Some? && (b.value.2 == 1 <==> t1 + DELAYED_ACK_TIME < t2)
  {
    DelStepInv(d, rcvNxt, ProcStep(t1));
    var a := DelNext(d, rcvNxt, ProcStep(t1));
    TimerPassOne(a.value.0, rcvNxt + n, t2);
  }

  /** An ack transmitted at t1 is repeated by a timer scan exactly when more than 500 ms have passed without
      another packet to acknowledge. */
  lemma SentAckRepeatsIff(d: Delack, rcvNxt: nat, t1: int, n: nat, t2: int)
    requires DelInv(d, rcvNxt) && d.st != DEL_QUE
    ensures var a := DelNext(d, rcvNxt, ProcStep(t1));
            a.Some? && a.value.2 == 1
            && var b := DelNext(a.value.0, rcvNxt + n, Timer(t2));
               b.Some? && (b.value.2 == 1 <==> t1 + PROMPT_ACK_TIME < t2)
  {
    DelStepInv(d, rcvNxt, ProcStep(t1));
    var a := DelNext(d, rcvNxt, ProcStep(t1));
    TimerPassOne(a.value.0, rcvNxt + n, t2);
  }

  // ---------------------------------------------------------------- the deadlines over many scans

  /** proc_delack transmits unless it is the turn to queue, and restarts both deadlines either way. */
  lemma ProcArms(d: Delack, rcvNxt: nat, t: int)
    requires DelInv(d, rcvNxt)
    ensures DelNext(d, rcvNxt, ProcStep(t))
            == Some((Delack(if d.st == DEL_QUE then DEL_XMIT else DEL_QUE, [AckNode(rcvNxt, t + 500, t + 200)]),
                     rcvNxt, if d.st == DEL_QUE then 0 else 1))
  {
    assert d.nodes != [] ==> d.nodes[0 := FreshNode(rcvNxt, t)] == [FreshNode(rcvNxt, t)];
  }

  /** The exits of proc_delack: the error state, and an ack to queue without a node. */
  lemma ProcExitsIff(d: Delack, rcvNxt: nat, t: int)
    ensures ProcDelack(d, rcvNxt, t).None? <==> d.st == DEL_ERR || (d.st == DEL_QUE && d.nodes == [])
  {
  }

  /** The exits of a scan of one node: the error state, and the assertion in sendack, exactly if the ack is due and the
      node runs ahead of rcv_nxt. */
  lemma ScanExitsIff(st: DelState, n: AckNode, rcvNxt: nat, t: int)
    ensures TimerPass(Delack(st, [n]), 0, rcvNxt, t).None? <==>
            st == DEL_ERR || (st != DEL_IMMED && rcvNxt < n.pId && (if st == DEL_XMIT then n.nagleMs else n.pushMs) < t)
  {
    var d := Delack(st, [n]);
    var x := DelackXmit(d, 0, rcvNxt, t);
    if x.Some? {
      assert TimerPass(x.value.0, 1, rcvNxt, t) == Some((x.value.0, 0));
    }
  }

  /** Only scans and arriving bytes. */
  predicate Waiting(es: seq<DelEvent>) {
    forall i :: 0 <= i < |es| ==> es[i].Timer? || es[i].Received?
  }

  /** When the timer thread scans. */
  function ScanTimes(es: seq<DelEvent>): seq<int> {
    if es == [] then [] else (if es[0].Timer? then [es[0].t] else []) + ScanTimes(es[1..])
  }

  /** When a scan transmits an ack. */
  function SentAt(d: Delack, rcvNxt: nat, es: seq<DelEvent>): seq<int>
    decreases |es|
  {
    if es == [] || DelNext(d, rcvNxt, es[0]).None? then []
    else
      var x := DelNext(d, rcvNxt, es[0]).value;
      (if es[0].Timer? && x.2 > 0 then [es[0].t] else []) + SentAt(x.0, x.1, es[1..])
  }

  /** The first of the times after the deadline, and from then on each that comes more than 500 ms after the last. */
  function DueTimes(ts: seq<int>, due: int): seq<int> {
    if ts == [] then []
    else if due < ts[0] then [ts[0]] + DueTimes(ts[1..], ts[0] + 500)
    else DueTimes(ts[1..], due)
  }

  /** The deadline that the next scan compares with. */
  function Deadline(d: Delack): int
    requires d.nodes != []
  {
    if d.st == DEL_XMIT then d.nodes[0].nagleMs else d.nodes[0].pushMs
  }

  lemma {:induction false} ScansSendWhenDue(d: Delack, rcvNxt: nat, es: seq<DelEvent>)
    requires DelInv(d, rcvNxt) && d.nodes != [] && d.st != DEL_IMMED && Waiting(es)
    ensures SentAt(d, rcvNxt, es) == DueTimes(ScanTimes(es), Deadline(d))
    decreases |es|
  {
    if es != [] {
      DelStepInv(d, rcvNxt, es[0]);
      if es[0].Timer? {
        TimerPassOne(d, rcvNxt, es[0].t);
      }
      var x := DelNext(d, rcvNxt, es[0]).value;
      hide DelInv, DelNext;
      ScansSendWhenDue(x.0, x.1, es[1..]);
      ScanTimesCons(es, Deadline(d));
    }
  }

  lemma ScanTimesCons(es: seq<DelEvent>, due: int)
    requires es != []
    ensures DueTimes(ScanTimes(es), due) ==
            if !es[0].Timer? then DueTimes(ScanTimes(es[1..]), due)
            else if due < es[0].t then [es[0].t] + DueTimes(ScanTimes(es[1..]), es[0].t + 500)
            else DueTimes(ScanTimes(es[1..]), due)
  {
    assert [] + ScanTimes(es[1..]) == ScanTimes(es[1..]);
    if es[0].Timer? {
      assert ([es[0].t] + ScanTimes(es[1..]))[1..] == ScanTimes(es[1..]);
    }
  }

  lemma {:induction false} DueTimesApart(ts: seq<int>, due: int)
    ensures var r := DueTimes(ts, due);
            && (r != [] ==> due < r[0])
            && forall i :: 0 <= i < |r| - 1 ==> r[i] + 500 < r[i + 1]
    decreases |ts|
  {
    if ts != [] {
      if due < ts[0] {
        DueTimesApart(ts[1..], ts[0] + 500);
      } else {
        DueTimesApart(ts[1..], due);
      }
    }
  }

  /** The timer thread between two packets: after a call of proc_delack at t1, the first ack goes out on the first scan
      later than 500 ms after a transmission, or 200 ms after an ack was queued, and each further one on the first
      scan more than 500 ms after the last; so two of them are always more than 500 ms apart. */
  lemma TimerSendsEvery500(d: Delack, rcvNxt: nat, t1: int, es: seq<DelEvent>)
    requires DelInv(d, rcvNxt) && Waiting(es)
    ensures var a := DelNext(d, rcvNxt, ProcStep(t1));
            a.Some? && var r := SentAt(a.value.0, a.value.1, es);
                       && r == DueTimes(ScanTimes(es), t1 + if a.value.2 == 1 then 500 else 200)
                       && forall i :: 0 <= i < |r| - 1 ==> r[i] + 500 < r[i + 1]
  {
    ProcArms(d, rcvNxt, t1);
    DelStepInv(d, rcvNxt, ProcStep(t1));
    var a := DelNext(d, rcvNxt, ProcStep(t1)).value;
    hide DelNext, DelInv, SentAt, DueTimes, ScanTimes;
    ScansSendWhenDue(a.0, a.1, es);
    DueTimesApart(ScanTimes(es), t1 + if a.2 == 1 then 500 else 200);
  }

  lemma {:induction false} ForcedScans(d: Delack, rcvNxt: nat, es: seq<DelEvent>)
    requires DelInv(d, rcvNxt) && d.st == DEL_IMMED && Waiting(es)
    ensures SentAt(d, rcvNxt, es) == []
    ensures var r := DelRun(d, rcvNxt, es);
            r.Some? && DelInv(r.value.0, r.value.1) && r.value.0.st == DEL_IMMED
    decreases |es|
  {
    if es != [] {
      DelStepInv(d, rcvNxt, es[0]);
      if es[0].Timer? {
        TimerPassOne(d, rcvNxt, es[0].t);
      }
      var x := DelNext(d, rcvNxt, es[0]).value;
      ForcedScans(x.0, x.1, es[1..]);
    }
  }

  /** Once an immediate ack has been asked for, the timer thread keeps out of the way and proc_delack sends it. */
  lemma ForcedAckIsSent(d: Delack, rcvNxt: nat, es: seq<DelEvent>, t: int)
    requires DelInv(d, rcvNxt) && Waiting(es)
    ensures var f := DelNext(d, rcvNxt, Force);
            f.Some? && SentAt(f.value.0, rcvNxt, es) == []
            && var r := DelRun(f.value.0, rcvNxt, es);
               r.Some? && var x := DelNext(r.value.0, r.value.1, ProcStep(t));
                          x.Some? && x.value.2 == 1
  {
    ForcedScans(d.(st := DEL_IMMED), rcvNxt, es);
    var r := DelRun(d.(st := DEL_IMMED), rcvNxt, es).value;
    ProcArms(r.0, r.1, t);
  }

  /** Without scans and immediate acks in between, exactly one of two successive proc_delack calls transmits. */
  lemma ExactlyEverySecond(d: Delack, rcvNxt: nat, t1: int, n: nat, t2: int)
    requires DelInv(d, rcvNxt)
    ensures var a := DelNext(d, rcvNxt, ProcStep(t1));
            a.Some? && var c := DelNext(a.value.0, rcvNxt + n, ProcStep(t2));
                       c.Some? && a.value.2 + c.value.2 == 1
  {
    ProcArms(d, rcvNxt, t1);
    DelStepInv(d, rcvNxt, ProcStep(t1));
    var a := DelNext(d, rcvNxt, ProcStep(t1)).value;
    ProcArms(a.0, rcvNxt + n, t2);
  }
}
