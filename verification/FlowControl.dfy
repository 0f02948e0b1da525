/** There is no flow control: a receiver that does not read is sent more than it can store. */
module FlowControl {
  import opened TouTypes
  import opened Congestion
  import opened History
  import opened SenderModel
  import opened SenderProofs
  import AckProofs
  import opened ReceiverModel
  import opened ReceiverSteps
  import opened EndpointModel
  import opened Network
  import opened NetworkProofs
  import opened EndToEnd
  import opened Deliverable
  import opened Progress

  /** Everything sent has been received in order and acknowledged, and n bytes wait in cb_recv. */
  ghost predicate Quiet(s: Sys, n: nat) {
    && Inv(s) && s.a.snd.una == s.a.snd.nxt == s.b.rcv.rcvNxt && s.a.snd.cb == []
    && !s.b.rcv.recovering && s.b.rcv.heap == [] && |s.b.rcv.cb| == n
  }

  ghost predicate Idle(s: Sys, n: nat) {
    Quiet(s, n) && s.a.snd.cc.awnd > SMSS
  }

  /** A window an idle sender transmits under (see SenderProofs.SendsWhenIdleIff). */
  predicate Opens(c: Cong) {
    if c.cc == CC_CA then GetWnd(c) > SMSS else GetWnd(c) >= MIN_SEND_SIZE
  }

  lemma WideOpens(h: Hist, s: Sender, rn: nat)
    requires SInv(h, s, rn) && s.cc.awnd > SMSS
    ensures Opens(s.cc)
  {
    AckProofs.SInvCong(h, s, rn);
  }

  /** No loss, no duplication, no timeout, no NUL, and nobody reads. */
  predicate Plain(l: Label) {
    (l.AppSend? && NulFree(l.bytes)) || l.RecvData? || l.AckTimer? || l.RecvAck?
  }

  predicate AllPlain(ls: seq<Label>) {
    forall i :: 0 <= i < |ls| ==> Plain(ls[i])
  }

  // ---------------------------------------------------------------- one byte

  /** An idle sender transmits a byte at once, in a segment of its own. */
  lemma ByteSent(s: Sender, rn: nat, x: Byte, now: int)
    requires Opens(s.cc) && s.una == s.nxt && s.cb == [x]
    ensures var (s', ps) := Send(s, rn, now);
            && |ps| == 1 && ps[0].seqNo == s.nxt && ps[0].payload == [x]
            && s'.cb == [] && s'.nxt == s.nxt + 1 && s'.una == s.una && s'.cc == s.cc
  {
    hide Send;
    SendSafe(s, rn, now);
    SendsWhenIdleIff(s, rn, now);
    var (s', ps) := Send(s, rn, now);
    assert Payloads(ps) == ps[0].payload + Payloads(ps[1..]);
    assert |Payloads(ps)| + |s'.cb| == 1;
    assert ps[0].payload == [x] by {
      assert (Payloads(ps) + s'.cb)[0] == x;
    }
  }

  lemma ByteQueued(e: Endpoint, x: Byte, now: int)
    requires Opens(e.snd.cc) && e.snd.una == e.snd.nxt && e.snd.cb == []
    ensures var o := TouSend(e, [x], now);
            && o.EndOk? && o.e.rcv == e.rcv
            && |o.out| == 1 && o.out[0].seqNo == e.snd.nxt && o.out[0].payload == [x]
            && o.e.snd.cb == [] && o.e.snd.nxt == e.snd.nxt + 1 && o.e.snd.una == e.snd.una && o.e.snd.cc == e.snd.cc
  {
    assert CbInsert([], [x]) == [x] by {
      assert [] + [x] == [x];
    }
    ByteSent(e.snd.(cb := [x]), e.rcv.rcvNxt, x, now);
    hide Send, CbInsert, Opens;
  }

  lemma Written(s: Sys, n: nat, x: Byte, now: int)
    requires Quiet(s, n) && Opens(s.a.snd.cc) && now > 0
    ensures var r := Next(s, AppSend([x], now));
            && r.Running? && Inv(r.s) && r.s.b == s.b && r.s.a.rcv == s.a.rcv
            && WirePacket(s.a.snd.nxt, Rn(s), [x]) in r.s.data
            && r.s.a.snd.una == s.a.snd.una && r.s.a.snd.nxt == s.a.snd.nxt + 1
            && r.s.a.snd.cb == [] && r.s.a.snd.cc == s.a.snd.cc
  {
    hide Inv, Opens, DataOk, Mangled, SenderStep, TouSend, AddSent;
    ByteQueued(s.a, x, now);
    AppSendStep(s, [x], now);
    SenderStepInv(s, Accept(s, [x]), TouSend(s.a, [x], now));
    var o := TouSend(s.a, [x], now);
    var p := o.out[0];
    assert p in o.out;
    SentWire(AddSent(Accept(s, [x]), o.out), Rn(s), p);
    assert p == WirePacket(s.a.snd.nxt, Rn(s), [x]);
    assert p in multiset(o.out);
  }

  lemma MatchEmpty(r: Receiver, p: Packet, k: nat, now: int)
    requires r.heap == [] && !r.recovering && p.seqNo == r.rcvNxt && RcvData(r, p, k, now).RcvOk?
    ensures var t := RcvData(r, p, k, now).r;
            t == r.(rcvNxt := p.End(), cb := CbInsert(r.cb, p.payload), del := t.del)
  {
  }

  lemma Received(s: Sys, p: Packet, now: int)
    requires Inv(s) && p in s.data && p.payload != [] && p.seqNo == s.b.rcv.rcvNxt && now > 0
    requires s.b.rcv.heap == [] && !s.b.rcv.recovering
    ensures Enabled(s, RecvData(p, 0, now))
    ensures var r := Next(s, RecvData(p, 0, now));
            && r.Running? && Inv(r.s) && r.s.a == s.a
            && r.s.b.rcv == s.b.rcv.(rcvNxt := p.End(), cb := CbInsert(s.b.rcv.cb, p.payload), del := r.s.b.rcv.del)
  {
    hide Inv, Next, RcvData;
    RecvDataStep(s, p, 0, now);
    MatchEmpty(s.b.rcv, p, 0, now);
  }

  lemma Acked(s: Sys, now: int) returns (c: int)
    requires Inv(s) && s.a.snd.una < s.b.rcv.rcvNxt && !s.b.rcv.recovering && now > 0
    ensures now <= c
    ensures var r := Next(s, AckTimer(c));
            && r.Running? && Inv(r.s) && r.s.a == s.a
            && r.s.b.rcv == s.b.rcv.(del := r.s.b.rcv.del)
            && WirePacket(s.b.snd.nxt, s.b.rcv.rcvNxt, []) in r.s.acks
  {
    hide Inv, Next;
    UnaBounds(s);
    AckWaits(s);
    var d := s.b.rcv.del;
    c := Max(now, Max(d.nodes[0].pushMs, d.nodes[0].nagleMs) + 1);
    AckFires(s, c);
    AckTimerStep(s, c);
  }

  /** A newer ack with nothing queued transmits nothing. */
  lemma AckQuiet(s: Sender, rn: nat, ack: nat, now: int)
    requires s.cb == [] && ack > s.una && CongInv(s.cc)
    ensures !Traps(s.cc)
    ensures var r := AckIn(s, rn, ack, now);
            r.Sent? && r.s.cb == [] && r.s.nxt == s.nxt && r.s.una == ack && r.s.cc == AddWnd(s.cc) && r.pkts == []
  {
    CcStepInv(s.cc, AckMoves);
    var s1 := Advance(s.(cc := AddWnd(s.cc)), ack, now);
    assert Send(s1, rn, now) == (s1, []);
  }

  lemma Confirmed(s: Sys, q: Packet, now: int)
    requires Inv(s) && q in s.acks && q.ackSeq == s.b.rcv.rcvNxt == s.a.snd.nxt && s.a.snd.una < s.a.snd.nxt
    requires s.a.snd.cb == [] && now > 0
    ensures Enabled(s, RecvAck(q, now))
    ensures var r := Next(s, RecvAck(q, now));
            && r.Running? && Inv(r.s) && r.s.b == s.b
            && r.s.a.snd.una == r.s.a.snd.nxt == s.a.snd.nxt && r.s.a.snd.cb == []
            && !Traps(s.a.snd.cc) && r.s.a.snd.cc == AddWnd(s.a.snd.cc)
  {
    AckProofs.SInvCong(s.h, s.a.snd, Rn(s));
    AckQuiet(s.a.snd, Rn(s), q.ackSeq, now);
    hide SInv, RInv, AllDataIn, AcksOk, AckIn;
    AckClass(s, q);
    AckHandled(s.a, q, now);
    hide Classify;
    AckNext(s, q, now);
    hide Inv, Next, HandlePacket;
    assert !RexmitExits(s.a.snd, q.ackSeq);
    StepInv(s, RecvAck(q, now));
  }

  // ---------------------------------------------------------------- many bytes

  lemma {:induction false} EverOverflowsConcat(s: Sys, l1: seq<Label>, t: Sys, l2: seq<Label>)
    requires Exec(s, l1) == Some(Running(t)) && EverOverflows(t, l2)
    ensures EverOverflows(s, l1 + l2)
    decreases |l1|
  {
    hide Enabled, Next, Overflows;
    if l1 == [] {
      assert [] + l2 == l2;
    } else {
      EverOverflowsConcat(Next(s, l1[0]).s, l1[1..], t, l2);
      assert (l1 + l2)[1..] == l1[1..] + l2;
    }
  }

  /** A plain history from s to t that starts and ends at the given times. */
  ghost predicate Takes(s: Sys, ls: seq<Label>, t: Sys, c0: int, c1: int) {
    Exec(s, ls) == Some(Running(t)) && Timed(ls, c0, c1) && AllPlain(ls) && 0 < c0 <= c1
  }

  lemma TakesOne(s: Sys, l: Label, c: int)
    requires Enabled(s, l) && Next(s, l).Running? && Plain(l) && 0 < c <= TimeOf(l, c)
    ensures Takes(s, [l], Next(s, l).s, c, TimeOf(l, c))
  {
    hide Enabled, Next, Plain;
    assert [l][1..] == [];
    assert Exec(Next(s, l).s, []) == Some(Running(Next(s, l).s));
    assert Timed([], TimeOf(l, c), TimeOf(l, c));
  }

  lemma TakesBoth(s: Sys, l1: seq<Label>, t: Sys, l2: seq<Label>, u: Sys, c0: int, c1: int, c2: int)
    requires Takes(s, l1, t, c0, c1) && Takes(t, l2, u, c1, c2)
    ensures Takes(s, l1 + l2, u, c0, c2)
  {
    hide Plain;
    TimedConcat(l1, l2, c0, c1, c2);
    ExecConcat(s, l1, t, l2);
  }

  /** The byte in flight is received and acknowledged. */
  lemma RoundTrip(s: Sys, n: nat, p: Packet, c: int) returns (ls: seq<Label>, t: Sys, c': int)
    requires Inv(s) && p in s.data && p.seqNo == s.b.rcv.rcvNxt == s.a.snd.una && p.payload == [65]
    requires s.a.snd.nxt == p.End() && s.a.snd.cb == [] && n + 1 < MAX_CIRCULAR_BUF && c > 0
    requires !s.b.rcv.recovering && s.b.rcv.heap == [] && |s.b.rcv.cb| == n
    ensures Takes(s, ls, t, c, c') && Quiet(t, n + 1) && c' > 0
    ensures !Traps(s.a.snd.cc) && t.a.snd.cc == AddWnd(s.a.snd.cc)
  {
    hide Inv, Next, Takes, AddWnd;
    var l2 := RecvData(p, 0, c);
    Received(s, p, c);
    TakesOne(s, l2, c);
    var s2 := Next(s, l2).s;
    assert |s2.b.rcv.cb| == n + 1;
    c' := Acked(s2, c);
    var l3 := AckTimer(c');
    TakesOne(s2, l3, c);
    var s3 := Next(s2, l3).s;
    var q := WirePacket(s2.b.snd.nxt, s2.b.rcv.rcvNxt, []);
    var l4 := RecvAck(q, c');
    Confirmed(s3, q, c');
    TakesOne(s3, l4, c');
    t := Next(s3, l4).s;
    TakesBoth(s, [l2], s2, [l3], s3, c, c, c');
    TakesBoth(s, [l2] + [l3], s3, [l4], t, c, c', c');
    ls := [l2] + [l3] + [l4];
  }

  /** One more byte is written, received, acknowledged, and never read. */
  lemma OneMore(s: Sys, n: nat, c: int) returns (ls: seq<Label>, t: Sys, c': int)
    requires Quiet(s, n) && Opens(s.a.snd.cc) && n + 1 < MAX_CIRCULAR_BUF && c > 0
    ensures Takes(s, ls, t, c, c') && Quiet(t, n + 1) && c' > 0
    ensures !Traps(s.a.snd.cc) && t.a.snd.cc == AddWnd(s.a.snd.cc)
  {
    hide Inv, Next, Takes, AddWnd, Opens;
    var l1 := AppSend([65], c);
    Written(s, n, 65, c);
    TakesOne(s, l1, c);
    var s1 := Next(s, l1).s;
    var l2;
    l2, t, c' := RoundTrip(s1, n, WirePacket(s.a.snd.nxt, Rn(s), [65]), c);
    TakesBoth(s, [l1], s1, l2, t, c, c, c');
    ls := [l1] + l2;
  }

  lemma QuietSound(s: Sys, n: nat)
    requires Quiet(s, n)
    ensures SInv(s.h, s.a.snd, Rn(s))
  {
  }

  lemma {:induction false} Fill(s: Sys, n: nat, c: int) returns (ls: seq<Label>, t: Sys, c': int)
    requires Idle(s, n) && n < MAX_CIRCULAR_BUF && c > 0
    ensures Takes(s, ls, t, c, c') && Idle(t, MAX_CIRCULAR_BUF - 1) && c' > 0
    decreases MAX_CIRCULAR_BUF - n
  {
    if n == MAX_CIRCULAR_BUF - 1 {
      assert Exec(s, []) == Some(Running(s));
      return [], s, c;
    }
    hide Quiet, Takes;
    QuietSound(s, n);
    WideOpens(s.h, s.a.snd, Rn(s));
    var l1, s1, c1 := OneMore(s, n, c);
    var l2, s2, c2 := Fill(s1, n + 1, c1);
    TakesBoth(s, l1, s1, l2, s2, c, c1, c2);
    return l1 + l2, s2, c2;
  }

  /** The next byte finds one free cell, and is lost. */
  lemma OneTooMany(s: Sys, c: int) returns (ls: seq<Label>, t: Sys)
    requires Idle(s, MAX_CIRCULAR_BUF - 1) && c > 0
    ensures Takes(s, ls, t, c, c) && EverOverflows(s, ls)
  {
    QuietSound(s, MAX_CIRCULAR_BUF - 1);
    WideOpens(s.h, s.a.snd, Rn(s));
    hide Inv, Next, Takes, Opens, Enabled, EverOverflows, Overflows;
    var l1 := AppSend([65], c);
    Written(s, MAX_CIRCULAR_BUF - 1, 65, c);
    assert Enabled(s, l1);
    TakesOne(s, l1, c);
    var s1 := Next(s, l1).s;
    var p := WirePacket(s.a.snd.nxt, Rn(s), [65]);
    var l2 := RecvData(p, 0, c);
    NoRoom(s1, p, c);
    t := Next(s1, l2).s;
    TakesBoth(s, [l1], s1, [l2], t, c, c, c);
    ls := [l1] + [l2];
    OverflowsAfter(s, l1, l2);
  }

  lemma NoRoom(s: Sys, p: Packet, c: int)
    requires Inv(s) && p in s.data && p.payload != [] && p.seqNo == s.b.rcv.rcvNxt && c > 0
    requires s.b.rcv.heap == [] && !s.b.rcv.recovering && |s.b.rcv.cb| == MAX_CIRCULAR_BUF - 1
    ensures var l := RecvData(p, 0, c);
            Enabled(s, l) && Next(s, l).Running? && Overflows(s, l) && Takes(s, [l], Next(s, l).s, c, c)
  {
    hide Inv, Next, Takes, CbInsert;
    Received(s, p, c);
    TakesOne(s, RecvData(p, 0, c), c);
  }

  lemma OverflowsAfter(s: Sys, l1: Label, l2: Label)
    requires Enabled(s, l1) && Next(s, l1).Running? && Enabled(Next(s, l1).s, l2) && Next(Next(s, l1).s, l2).Running?
    requires Overflows(Next(s, l1).s, l2)
    ensures EverOverflows(s, [l1] + [l2])
  {
    hide Next, Enabled, Overflows;
    assert ([l1] + [l2])[1..] == [l2];
  }

  ghost predicate Overruns(s: Sys) {
    exists ls, t, c :: Takes(s, ls, t, 1, c) && EverOverflows(s, ls)
  }

  /** From every handshake whose advertised window is above one segment there is a history of text, with a clock
      that never runs backwards and a network that loses, reorders and duplicates nothing, in which the sender
      overruns the buffer of a receiver that does not read. */
  lemma NothingStopsTheSender(s0: Sys)
    requires Started(s0) && s0.a.snd.cc.awnd > SMSS
    ensures Overruns(s0)
  {
    hide Idle, Started, Takes, EverOverflows, Overruns;
    StartsIdle(s0);
    var l1, s1, c1 := Fill(s0, 0, 1);
    var l2, s2 := OneTooMany(s1, c1);
    OverrunsLater(s0, l1, s1, l2, s2, c1, c1);
  }

  lemma OverrunsLater(s: Sys, l1: seq<Label>, t: Sys, l2: seq<Label>, u: Sys, c1: int, c2: int)
    requires Takes(s, l1, t, 1, c1) && Takes(t, l2, u, c1, c2) && EverOverflows(t, l2)
    ensures Overruns(s)
  {
    hide EverOverflows;
    TakesBoth(s, l1, t, l2, u, 1, c1, c2);
    EverOverflowsConcat(s, l1, t, l2);
    hide Takes;
    assert Takes(s, l1 + l2, u, 1, c2) && EverOverflows(s, l1 + l2);
  }

  lemma StartsIdle(s: Sys)
    requires Started(s) && s.a.snd.cc.awnd > SMSS
    ensures Idle(s, 0)
  {
    StartedInv(s);
    hide Inv;
  }
}
