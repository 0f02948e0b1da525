/** Progress: queued bytes are not stranded under an advertised window above one segment, and from which states
    everything accepted can still be delivered and acknowledged. */
module Progress {
  import opened TouTypes
  import opened Congestion
  import opened DelayedAck
  import opened History
  import opened SenderModel
  import opened SenderProofs
  import opened AckProofs
  import opened ReceiverModel
  import opened ReceiverProofs
  import opened ReceiverSteps
  import opened EndpointModel
  import opened Network
  import opened NetworkProofs
  import opened EndToEnd
  import opened Deliverable

  // ---------------------------------------------------------------- nothing is stranded

  /** Bytes are queued only while something is in flight, under an advertised window above one segment. */
  ghost predicate SndLive(s: Sys) {
    NotStranded(s.a.snd) && s.a.snd.cc.awnd > SMSS
  }

  lemma AckLeavesNothingStranded(h: Hist, s: Sender, rn: nat, ack: nat, now: int)
    requires SInv(h, s, rn) && ack in h.cuts && now > 0 && s.cc.awnd > SMSS
    ensures var r := AckIn(s, rn, ack, now);
            r.Sent? ==> NotStranded(r.s) && r.s.cc.awnd == s.cc.awnd
  {
    AckInInv(h, s, rn, ack, now);
    assert s.una <= s.nxt && ack <= s.nxt;
    hide SInv, Send, FastRexmit, NotStranded, ClearByAck, CalRto;
    SInvCong(h, s, rn);
    if ack == s.una {
      CcStepInv(s.cc, AckDup);
      var s1 := s.(cc := SetDWnd(s.cc, true));
      var fr := if CkNumDupack(s1.cc) then FastRexmit(s.timers, ack, rn, s.rto, now) else Some((s.timers, []));
      if fr.Some? {
        SendLeavesNothingStranded(s1.(timers := fr.value.0), rn, now);
      }
    } else {
      CcStepInv(s.cc, AckMoves);
      var s1 := s.(cc := AddWnd(s.cc));
      SendLeavesNothingStranded(if ack > s.una then Advance(s1, ack, now) else s1, rn, now);
    }
  }

  lemma SndLiveStep(s: Sys, l: Label)
    requires Inv(s) && SndLive(s) && Enabled(s, l) && Next(s, l).Running?
    ensures SndLive(Next(s, l).s)
  {
    hide SInv, RInv, AllDataIn, AcksOk, Send, AckIn, TimeOut, RcvData, RecoveryStep;
    SInvCong(s.h, s.a.snd, Rn(s));
    match l
    case AppSend(bytes, now) =>
      var s0 := s.a.snd.(cb := CbInsert(s.a.snd.cb, bytes));
      SendLeavesNothingStranded(s0, Rn(s), now);
      SendSafe(s0, Rn(s), now);
    case RecvAck(p, now) =>
      AckClass(s, p);
      AckLeavesNothingStranded(s.h, s.a.snd, Rn(s), p.ackSeq, now);
    case SndTimer(now) => TimeOutInv(s.h, s.a.snd, Rn(s), now);
    case _ =>
  }

  lemma {:induction false} SndLiveRun(s: Sys, ls: seq<Label>)
    requires Inv(s) && SndLive(s) && Exec(s, ls).Some? && Exec(s, ls).value.Running?
    ensures SndLive(Exec(s, ls).value.s)
    decreases |ls|
  {
    hide Inv, SndLive, HitsOverlap, ExitsOnNul, Next, Enabled;
    if ls != [] {
      StepInv(s, ls[0]);
      SndLiveStep(s, ls[0]);
      SndLiveRun(Next(s, ls[0]).s, ls[1..]);
    }
  }

  /** In every history, if the advertised window is above one segment, bytes wait in cb_send only
      while a segment is in flight to draw the ack that sends them. */
  lemma NeverStranded(s0: Sys, ls: seq<Label>, s: Sys)
    requires Started(s0) && s0.a.snd.cc.awnd > SMSS && Exec(s0, ls) == Some(Running(s))
    ensures s.a.snd.cb != [] ==> s.a.snd.una < s.a.snd.nxt
  {
    StartedInv(s0);
    SndLiveRun(s0, ls);
  }

  // ---------------------------------------------------------------- schedules

  /** The clock after l, when it showed c before. */
  function TimeOf(l: Label, c: int): int {
    match l
    case AppSend(_, now) => now
    case RecvData(_, _, now) => now
    case Resume(now) => now
    case RecvAck(_, now) => now
    case SndTimer(now) => now
    case AckTimer(now) => now
    case _ => c
  }

  /** The clock of the history starts at c0, never runs backwards and ends at c1. */
  predicate Timed(ls: seq<Label>, c0: int, c1: int)
    decreases |ls|
  {
    if ls == [] then c0 == c1 else c0 <= TimeOf(ls[0], c0) && Timed(ls[1..], TimeOf(ls[0], c0), c1)
  }

  lemma {:induction false} TimedConcat(l1: seq<Label>, l2: seq<Label>, c0: int, c1: int, c2: int)
    requires Timed(l1, c0, c1) && Timed(l2, c1, c2)
    ensures Timed(l1 + l2, c0, c2)
    decreases |l1|
  {
    if l1 == [] {
      assert [] + l2 == l2;
    } else {
      TimedConcat(l1[1..], l2, TimeOf(l1[0], c0), c1, c2);
      assert (l1 + l2)[1..] == l1[1..] + l2;
    }
  }

  /** t is reached from s between the times c0 and c1 by a history in which the network loses and
      duplicates nothing and the sending application adds nothing. */
  ghost predicate Leads(s: Sys, ls: seq<Label>, t: Sys, c0: int, c1: int) {
    && Exec(s, ls) == Some(Running(t)) && Good(t) && Timed(ls, c0, c1) && 0 < c0 <= c1
    && t.h.st == s.h.st && t.h.base == s.h.base
    && s.a.snd.una <= t.a.snd.una && s.b.rcv.rcvNxt <= t.b.rcv.rcvNxt
    && (forall i :: 0 <= i < |ls| ==> Helpful(ls[i]))
  }

  lemma OneStep(s: Sys, l: Label, c: int)
    requires Good(s) && Enabled(s, l) && Careful(s, l) && 0 < c <= TimeOf(l, c)
    ensures Next(s, l).Running? && Leads(s, [l], Next(s, l).s, c, TimeOf(l, c))
  {
    hide Good, Next, ExitsOnNul, Enabled;
    GoodStep(s, l);
    var t := Next(s, l).s;
    assert [l][1..] == [];
    assert Exec(t, []) == Some(Running(t));
    assert Timed([], TimeOf(l, c), TimeOf(l, c));
  }

  lemma {:induction false} ExecConcat(s: Sys, l1: seq<Label>, t: Sys, l2: seq<Label>)
    requires Exec(s, l1) == Some(Running(t))
    ensures Exec(s, l1 + l2) == Exec(t, l2)
    decreases |l1|
  {
    hide Enabled, Next;
    if l1 == [] {
      assert [] + l2 == l2;
    } else {
      ExecConcat(Next(s, l1[0]).s, l1[1..], t, l2);
      assert (l1 + l2)[1..] == l1[1..] + l2;
    }
  }

  lemma Chain(s: Sys, l1: seq<Label>, t: Sys, l2: seq<Label>, u: Sys, c0: int, c1: int, c2: int)
    requires Leads(s, l1, t, c0, c1) && Leads(t, l2, u, c1, c2)
    ensures Leads(s, l1 + l2, u, c0, c2)
  {
    hide Good, Helpful;
    TimedConcat(l1, l2, c0, c1, c2);
    ExecConcat(s, l1, t, l2);
  }

  // ---------------------------------------------------------------- draining the receiver

  lemma EmptyBuffer(s: Sys, c: int) returns (l: Label)
    requires Good(s) && c > 0
    ensures l == AppRecv(|s.b.rcv.cb|) && Next(s, l).Running? && Leads(s, [l], Next(s, l).s, c, c)
    ensures var t := Next(s, l).s;
            t.b.rcv.cb == [] && t.a == s.a && t.b.rcv == s.b.rcv.(cb := []) && t.data == s.data
  {
    l := AppRecv(|s.b.rcv.cb|);
    OneStep(s, l, c);
  }

  lemma ResumeShrinks(h: Hist, rn: nat, r: Receiver, now: int)
    requires RInv(h, rn, r) && r.recovering && r.cb == [] && RecoveryStep(r, now).RcvOk?
    ensures |RecoveryStep(r, now).r.heap| < |r.heap|
  {
    var p := r.heap[0];
    AtCutData(h, rn, p);
    PayloadBytes(h, rn, p);
    RecoveryInv(h, rn, r, now);
    assert CbFits([], p.payload);
    RecoverMeaning(h, rn, r.heap[1..], p.End(), [] + p.payload);
  }

  /** Reading and resuming ends any recovery and leaves the buffer empty. */
  lemma {:induction false} Drain(s: Sys, c: int) returns (ls: seq<Label>, t: Sys)
    requires Good(s) && c > 0
    ensures Leads(s, ls, t, c, c) && !t.b.rcv.recovering && t.b.rcv.cb == [] && t.a == s.a
    decreases |s.b.rcv.heap|
  {
    hide Leads, Good;
    var l := EmptyBuffer(s, c);
    var s1 := Next(s, l).s;
    if !s1.b.rcv.recovering {
      return [l], s1;
    }
    var s2 := ResumeOnce(s, l, s1, c);
    var l2, u := Drain(s2, c);
    Chain(s, [l], s1, [Resume(c)], s2, c, c, c);
    Chain(s, [l] + [Resume(c)], s2, l2, u, c, c, c);
    return [l] + [Resume(c)] + l2, u;
  }

  lemma ResumeOnce(s: Sys, l: Label, s1: Sys, c: int) returns (s2: Sys)
    requires Leads(s, [l], s1, c, c) && s1.b.rcv == s.b.rcv.(cb := []) && s1.b.rcv.recovering && s1.a == s.a
    ensures Leads(s1, [Resume(c)], s2, c, c) && s2.a == s.a && |s2.b.rcv.heap| < |s.b.rcv.heap| && Good(s2)
  {
    OneStep(s1, Resume(c), c);
    s2 := Next(s1, Resume(c)).s;
    ResumeStep(s1, c);
    ResumeShrinks(s1.h, Rn(s1), s1.b.rcv, c);
  }

  // ---------------------------------------------------------------- one round trip

  /** With everything received acknowledged, a timeout re-sends the missing segment and it is accepted. */
  lemma Resend(s: Sys, c: int) returns (ls: seq<Label>, t: Sys, c': int)
    requires Good(s) && s.a.snd.una < s.a.snd.nxt && s.b.rcv.rcvNxt == s.a.snd.una && !FrontCut(s.a.snd)
    requires !s.b.rcv.recovering && s.b.rcv.cb == [] && c > 0
    ensures Leads(s, ls, t, c, c') && s.a.snd.una < t.b.rcv.rcvNxt && t.a.snd.una == s.a.snd.una
  {
    hide Inv, Clean, Opened, Delivered, Leads, Next, NulsOnTheirWay, FrontCut;
    FrontInFlight(s);
    var now := Max(c, s.a.snd.timers[0].ms + 1);
    var p := NodePacket(s.a.snd.timers[0], Rn(s));
    TimedOutState(s, now);
    OneStep(s, SndTimer(now), c);
    var s1 := Next(s, SndTimer(now)).s;
    LeadsFacts(s, [SndTimer(now)], s1, c, now);
    AcceptResent(s1, p, now);
    t := Next(s1, RecvData(p, 0, now)).s;
    Chain(s, [SndTimer(now)], s1, [RecvData(p, 0, now)], t, c, now, now);
    ls := [SndTimer(now)] + [RecvData(p, 0, now)];
    c' := now;
  }

  lemma FrontInFlight(s: Sys)
    requires Inv(s) && s.a.snd.una < s.a.snd.nxt
    ensures s.a.snd.timers != []
    ensures !FrontCut(s.a.snd) ==> NodePacket(s.a.snd.timers[0], Rn(s)).seqNo == s.a.snd.una
                                   && NodePacket(s.a.snd.timers[0], Rn(s)).payload != []
  {
    assert s.a.snd.timers != [];
    TilesAt(s.h, s.a.snd.timers, s.a.snd.una, s.a.snd.nxt, 0);
  }

  /** The front node holds only what a NUL left of its segment, but the segment itself is on its way. */
  lemma OriginalInFlight(s: Sys) returns (p: Packet)
    requires Inv(s) && NulsOnTheirWay(s) && s.b.rcv.rcvNxt == s.a.snd.una && !s.b.rcv.recovering && FrontCut(s.a.snd)
    ensures p in s.data && p.payload != [] && p.seqNo == s.b.rcv.rcvNxt
  {
    var lo, n := s.a.snd.una, s.a.snd.timers[0];
    p := Orig(s.h, Rn(s), lo, n.pId);
    TilesAt(s.h, s.a.snd.timers, lo, s.a.snd.nxt, 0);
    StartIff(s.h, lo, n);
    hide Tiles, LogOk, IsSeg, CStr, Bytes, Sends;
    assert KarnAt(s.h, Rn(s), From(s.a.snd.timers, lo, 0), n, 0);
    assert p in s.h.log;
  }

  /** With everything received acknowledged and the front node cut, the segment itself arrives. */
  lemma Arrive(s: Sys, c: int) returns (ls: seq<Label>, t: Sys)
    requires Good(s) && s.b.rcv.rcvNxt == s.a.snd.una && FrontCut(s.a.snd)
    requires !s.b.rcv.recovering && s.b.rcv.cb == [] && c > 0
    ensures Leads(s, ls, t, c, c) && s.a.snd.una < t.b.rcv.rcvNxt && t.a.snd.una == s.a.snd.una
  {
    hide Inv, Clean, Opened, Delivered, Leads, Next, NulsOnTheirWay, FrontCut;
    var p := OriginalInFlight(s);
    AcceptResent(s, p, c);
    ls, t := [RecvData(p, 0, c)], Next(s, RecvData(p, 0, c)).s;
  }

  lemma TimedOutState(s: Sys, now: int)
    requires Inv(s) && s.a.snd.timers != [] && s.a.snd.timers[0].ms < now
    ensures var r := Next(s, SndTimer(now));
            && r.Running? && r.s.b == s.b && r.s.a.snd.una == s.a.snd.una && r.s.a.rcv == s.a.rcv
            && NodePacket(s.a.snd.timers[0], Rn(s)) in r.s.data
  {
    hide SInv, RInv, TimeOut, AllDataIn, AcksOk, Ext, DataOk, Mangled, AddSent;
    TimeOutInv(s.h, s.a.snd, Rn(s), now);
  }

  lemma AcceptResent(s: Sys, p: Packet, c: int)
    requires Good(s) && p in s.data && p.payload != [] && p.seqNo == s.b.rcv.rcvNxt
    requires !s.b.rcv.recovering && s.b.rcv.cb == [] && c > 0
    ensures var r := Next(s, RecvData(p, 0, c));
            && r.Running? && Leads(s, [RecvData(p, 0, c)], r.s, c, c)
            && s.b.rcv.rcvNxt < r.s.b.rcv.rcvNxt && r.s.a == s.a
  {
    hide Inv, Next, Leads, Clean, Opened, Delivered, NulsOnTheirWay;
    AcceptStep(s, p, c);
    OneStep(s, RecvData(p, 0, c), c);
  }

  lemma AcceptStep(s: Sys, p: Packet, c: int)
    requires Inv(s) && p in s.data && p.payload != [] && p.seqNo == s.b.rcv.rcvNxt
    requires !s.b.rcv.recovering && s.b.rcv.cb == [] && c > 0
    ensures CbFits([], p.payload)
    ensures var r := Next(s, RecvData(p, 0, c));
            r.Running? ==> s.b.rcv.rcvNxt < r.s.b.rcv.rcvNxt && r.s.a == s.a
  {
    assert SentOk(s.h, Rn(s), p);
    hide SInv, SentOk, DataOk, RInv, AllDataIn, AcksOk;
    SentSize(s.h, Rn(s), p);
    RecvDataStep(s, p, 0, c);
    RcvDataInv(s.h, Rn(s), s.b.rcv, p, 0, c);
  }

  lemma SentSize(h: Hist, rn: nat, p: Packet)
    requires SentOk(h, rn, p)
    ensures |p.payload| <= MAX_PAYLOAD
  {
    if Mangled(h, rn, p) {
      MangledOffCut(h, rn, p);
    }
  }

  /** A receiver that has received something acknowledges it again once both deadlines have passed. */
  lemma FireAck(s: Sys, c: int) returns (s1: Sys, q: Packet, now: int)
    requires Good(s) && s.h.base < s.b.rcv.rcvNxt && !s.b.rcv.recovering && c > 0
    ensures Leads(s, [AckTimer(now)], s1, c, now) && q in s1.acks && q.ackSeq == s.b.rcv.rcvNxt
    ensures s1.a == s.a && s1.b.rcv == s.b.rcv.(del := s1.b.rcv.del)
  {
    hide Inv, Clean, Opened, Delivered, Leads, Next, DelInv, NulsOnTheirWay;
    AckWaits(s);
    var d := s.b.rcv.del;
    q := WirePacket(s.b.snd.nxt, s.b.rcv.rcvNxt, []);
    now := Max(c, Max(d.nodes[0].pushMs, d.nodes[0].nagleMs) + 1);
    AckFires(s, now);
    AckTimerStep(s, now);
    OneStep(s, AckTimer(now), c);
    s1 := Next(s, AckTimer(now)).s;
  }

  /** Once the receiver is ahead of snd_una, its ack timer and a delivered ack bring the sender up to it. */
  lemma AckBack(s: Sys, c: int) returns (ls: seq<Label>, t: Sys, c': int)
    requires Good(s) && s.a.snd.una < s.b.rcv.rcvNxt && !s.b.rcv.recovering && c > 0
    ensures Leads(s, ls, t, c, c') && t.a.snd.una == s.b.rcv.rcvNxt
  {
    UnaBounds(s);
    hide Inv, Clean, Opened, Delivered, Leads, Next, NulsOnTheirWay;
    var s1, q, now := FireAck(s, c);
    LeadsFacts(s, [AckTimer(now)], s1, c, now);
    AckArrives(s1, q, now);
    OneStep(s1, RecvAck(q, now), now);
    t := Next(s1, RecvAck(q, now)).s;
    Chain(s, [AckTimer(now)], s1, [RecvAck(q, now)], t, c, now, now);
    ls := [AckTimer(now)] + [RecvAck(q, now)];
    c' := now;
  }

  lemma AckArrives(s: Sys, q: Packet, c: int)
    requires Inv(s) && q in s.acks && c > 0
    ensures Enabled(s, RecvAck(q, c))
    ensures var r := Next(s, RecvAck(q, c));
            r.Running? ==> r.s.a.snd.una == Max(s.a.snd.una, q.ackSeq)
  {
    hide SInv, RInv, AllDataIn, AcksOk, HandlePacket, RexmitExits;
    RecvAckStep(s, q, c);
  }

  /** A scan after both deadlines of the ack node transmits an ack of rcv_nxt. */
  lemma AckFires(s: Sys, now: int)
    requires var d := s.b.rcv.del;
             && d.nodes != [] && d.st != DEL_IMMED && DelInv(d, s.b.rcv.rcvNxt)
             && d.nodes[0].pushMs < now && d.nodes[0].nagleMs < now
    ensures var r := Next(s, AckTimer(now));
            && r.Running? && WirePacket(s.b.snd.nxt, s.b.rcv.rcvNxt, []) in r.s.acks
            && r.s.a == s.a && r.s.b.rcv.rcvNxt == s.b.rcv.rcvNxt
  {
    var d, q := s.b.rcv.del, WirePacket(s.b.snd.nxt, s.b.rcv.rcvNxt, []);
    TimerPassOne(d, s.b.rcv.rcvNxt, now);
    AckTimerNext(s, now, TimerPass(d, 0, s.b.rcv.rcvNxt, now).value.0, 1);
    assert AckPackets(s.b.snd.nxt, s.b.rcv.rcvNxt, 1) == [q] + [];
    assert q in multiset([q]);
  }

  /** A receiver that has received something has an ack under its timer. */
  lemma AckWaits(s: Sys)
    requires Inv(s) && s.h.base < s.b.rcv.rcvNxt && !s.b.rcv.recovering
    ensures var d := s.b.rcv.del;
            d.nodes != [] && d.st != DEL_IMMED && DelInv(d, s.b.rcv.rcvNxt)
  {
    hide Tiles, LogOk, KarnOk, HeapOk, AllDataIn, AcksOk;
  }

  /** With everything received acknowledged, the next segment arrives: itself, or from its timer node. */
  lemma NextArrives(s: Sys, c: int) returns (ls: seq<Label>, t: Sys, c': int)
    requires Good(s) && s.a.snd.una < s.a.snd.nxt && s.b.rcv.rcvNxt == s.a.snd.una
    requires !s.b.rcv.recovering && s.b.rcv.cb == [] && c > 0
    ensures Leads(s, ls, t, c, c') && s.a.snd.una < t.b.rcv.rcvNxt && t.a.snd.una == s.a.snd.una
  {
    hide Good, Leads, FrontCut;
    if FrontCut(s.a.snd) {
      ls, t := Arrive(s, c);
      c' := c;
    } else {
      ls, t, c' := Resend(s, c);
    }
  }

  lemma FlightAdvances(s: Sys, c: int) returns (ls: seq<Label>, t: Sys, c': int)
    requires Good(s) && s.a.snd.una < s.a.snd.nxt && c > 0
    ensures Leads(s, ls, t, c, c') && s.a.snd.una < t.a.snd.una
  {
    hide Leads, Good;
    c' := c;
    ls, t := Drain(s, c);
    LeadsFacts(s, ls, t, c, c);
    if t.b.rcv.rcvNxt == t.a.snd.una {
      var l1, t1, c1 := NextArrives(t, c);
      LeadsFacts(t, l1, t1, c, c1);
      var l2, t2 := Drain(t1, c1);
      LeadsFacts(t1, l2, t2, c1, c1);
      Chain(s, ls, t, l1, t1, c, c, c1);
      Chain(s, ls + l1, t1, l2, t2, c, c1, c1);
      ls, t, c' := ls + l1 + l2, t2, c1;
    }
    var l3, t3, c3 := AckBack(t, c');
    Chain(s, ls, t, l3, t3, c, c', c3);
    ls, t, c' := ls + l3, t3, c3;
  }

  lemma IdleHeap(h: Hist, s: Sender, rn: nat)
    requires SInv(h, s, rn) && s.una == s.nxt
    ensures s.timers == []
  {
    hide LogOk, KarnOk;
  }

  lemma DupAckIdle(s: Sender, rn: nat, now: int)
    requires s.timers == []
    ensures var (s2, ps) := Send(s.(cc := SetDWnd(s.cc, true)), rn, now);
            AckIn(s, rn, s.una, now) == Sent(s2, ps)
  {
    DupAckUnfold(s, rn, now);
    hide AckIn, Send, SetDWnd;
    var s1 := s.(cc := SetDWnd(s.cc, true));
    assert s1.(timers := []) == s1;
    assert [] + Send(s1, rn, now).1 == Send(s1, rn, now).1;
  }

  lemma NudgedSend(s: Sender, rn: nat, now: int)
    requires CongInv(s.cc) && s.cc.awnd >= MIN_SEND_SIZE && s.una == s.nxt && s.cb != []
    ensures var r := Send(s, rn, now).0;
            && r.una == s.una && r.cc == s.cc
            && (s.una < r.nxt || (r.nxt == s.nxt && r.cb == s.cb && s.cc.cc == CC_CA))
  {
    if s.cc.cc != CC_CA {
      OutsideSends(s, rn, now);
    }
    SendSafe(s, rn, now);
    hide Send, CongInv;
    assert [] + Send(s, rn, now).0.cb == Send(s, rn, now).0.cb;
  }

  /** A duplicate ack to an idle sender that has bytes queued makes it transmit, or is counted. */
  lemma NudgedSender(h: Hist, s: Sender, rn: nat, now: int)
    requires SInv(h, s, rn) && s.una == s.nxt && s.cb != [] && s.cc.awnd >= MIN_SEND_SIZE
    ensures !FrontCut(s)
    ensures var r := AckIn(s, rn, s.una, now);
            && r.Sent? && r.s.una == s.una
            && (s.una < r.s.nxt
                || (r.s.nxt == s.nxt && r.s.cb == s.cb && r.s.cc.dup == s.cc.dup + 1 && r.s.cc.dup < REXMT_THRESH))
  {
    IdleHeap(h, s, rn);
    SInvCong(h, s, rn);
    hide SInv, Send, AckIn;
    DupAckIdle(s, rn, now);
    CcStepInv(s.cc, AckDup);
    NudgedSend(s.(cc := SetDWnd(s.cc, true)), rn, now);
  }

  lemma NudgeArrives(s: Sys, q: Packet, c: int)
    requires Inv(s) && q in s.acks && q.ackSeq == s.a.snd.una == s.a.snd.nxt && c > 0
    requires s.a.snd.cb != [] && s.a.snd.cc.awnd >= MIN_SEND_SIZE
    ensures Enabled(s, RecvAck(q, c)) && !ExitsOnNul(s, RecvAck(q, c))
    ensures var r := Next(s, RecvAck(q, c));
            r.Running? ==>
              && r.s.b == s.b && r.s.a.snd.una == s.a.snd.una
              && (s.a.snd.una < r.s.a.snd.nxt
                  || (r.s.a.snd.nxt == s.a.snd.nxt && r.s.a.snd.cb == s.a.snd.cb
                      && r.s.a.snd.cc.dup == s.a.snd.cc.dup + 1 && r.s.a.snd.cc.dup < REXMT_THRESH))
  {
    SenderSound(s);
    hide SInv, RInv, AllDataIn, AcksOk, AckIn, HandlePacket, FrontCut;
    NudgedSender(s.h, s.a.snd, Rn(s), c);
    AckClass(s, q);
    AckHandled(s.a, q, c);
    AckNext(s, q, c);
  }

  /** One repeated ack. */
  lemma NudgeOnce(s: Sys, c: int) returns (ls: seq<Label>, t: Sys, c': int)
    requires Good(s) && s.a.snd.una == s.a.snd.nxt && s.a.snd.cb != [] && !s.b.rcv.recovering && c > 0
    ensures Leads(s, ls, t, c, c') && t.a.snd.una == s.a.snd.una && !t.b.rcv.recovering
    ensures s.a.snd.una < t.a.snd.nxt
            || (t.a.snd.nxt == s.a.snd.nxt && t.a.snd.cb == s.a.snd.cb
                && s.a.snd.cc.dup < t.a.snd.cc.dup < REXMT_THRESH)
  {
    AllReceived(s);
    hide Inv, Clean, Delivered, Leads, Next, NulsOnTheirWay, ExitsOnNul;
    var s1, q, now := FireAck(s, c);
    LeadsFacts(s, [AckTimer(now)], s1, c, now);
    NudgeArrives(s1, q, now);
    OneStep(s1, RecvAck(q, now), now);
    t := Next(s1, RecvAck(q, now)).s;
    Chain(s, [AckTimer(now)], s1, [RecvAck(q, now)], t, c, now, now);
    ls := [AckTimer(now)] + [RecvAck(q, now)];
    c' := now;
  }

  lemma AllReceived(s: Sys)
    requires Good(s) && s.a.snd.una == s.a.snd.nxt && s.a.snd.cb != []
    ensures s.h.base < s.b.rcv.rcvNxt == s.a.snd.una
  {
    QueueLength(s);
    UnaBounds(s);
  }

  /** Queued bytes with nothing in flight: at most three repeated acks lead out of congestion avoidance. */
  lemma {:induction false} Nudge(s: Sys, c: int) returns (ls: seq<Label>, t: Sys, c': int)
    requires Good(s) && s.a.snd.una == s.a.snd.nxt && s.a.snd.cb != [] && !s.b.rcv.recovering && c > 0
    ensures Leads(s, ls, t, c, c') && t.a.snd.una == s.a.snd.una < t.a.snd.nxt
    decreases REXMT_THRESH - s.a.snd.cc.dup
  {
    hide Good, Leads;
    ls, t, c' := NudgeOnce(s, c);
    LeadsFacts(s, ls, t, c, c');
    if t.a.snd.una == t.a.snd.nxt {
      var l1, t1, c1 := Nudge(t, c');
      Chain(s, ls, t, l1, t1, c, c', c1);
      ls, t, c' := ls + l1, t1, c1;
    }
  }

  /** From every such state, data in flight or queued can still be received and acknowledged. */
  lemma CanAdvance(s: Sys, c: int) returns (ls: seq<Label>, t: Sys, c': int)
    requires Good(s) && (s.a.snd.una < s.a.snd.nxt || s.a.snd.cb != []) && c > 0
    ensures Leads(s, ls, t, c, c') && s.a.snd.una < t.a.snd.una
  {
    if s.a.snd.una < s.a.snd.nxt {
      ls, t, c' := FlightAdvances(s, c);
      return;
    }
    QueueLength(s);
    hide Leads, Good;
    var l1, t1 := Drain(s, c);
    LeadsFacts(s, l1, t1, c, c);
    var l2, t2, c2 := Nudge(t1, c);
    LeadsFacts(t1, l2, t2, c, c2);
    var l3, t3, c3 := FlightAdvances(t2, c2);
    Chain(s, l1, t1, l2, t2, c, c, c2);
    Chain(s, l1 + l2, t2, l3, t3, c, c2, c3);
    ls, t, c' := l1 + l2 + l3, t3, c3;
  }

  /** ... and so everything accepted can be delivered to the receiving application, with nothing left queued or
      unacknowledged. */
  lemma {:induction false} CanFinish(s: Sys, c: int) returns (ls: seq<Label>, t: Sys, c': int)
    requires Good(s) && c > 0
    ensures Leads(s, ls, t, c, c')
    ensures t.got == s.h.st && t.a.snd.una == t.a.snd.nxt && t.a.snd.cb == []
    decreases s.h.base + |s.h.st| - s.a.snd.una
  {
    GoodBounds(s);
    if s.a.snd.una < s.a.snd.nxt || s.a.snd.cb != [] {
      hide Leads, Good;
      var l1, t1, c1 := CanAdvance(s, c);
      LeadsFacts(s, l1, t1, c, c1);
      assert t1.a.snd.una <= t1.h.base + |t1.h.st| by {
        GoodBounds(t1);
      }
      var l2, t2, c2 := CanFinish(t1, c1);
      Chain(s, l1, t1, l2, t2, c, c1, c2);
      return l1 + l2, t2, c2;
    }
    var l := EmptyBuffer(s, c);
    t := Next(s, l).s;
    hide Leads, SInv, RInv, Clean, NulsOnTheirWay;
    LeadsFacts(s, [l], t, c, c);
    AcknowledgedIsReceived(t);
    assert t.got + [] == t.got;
    ls, c' := [l], c;
  }

  lemma GoodBounds(s: Sys)
    requires Good(s)
    ensures s.h.base <= s.a.snd.una <= s.a.snd.nxt && s.a.snd.una <= s.h.base + |s.h.st|
  {
    UnaBounds(s);
  }

  lemma LeadsFacts(s: Sys, ls: seq<Label>, t: Sys, c0: int, c1: int)
    requires Leads(s, ls, t, c0, c1)
    ensures Good(t) && t.h.st == s.h.st && t.h.base == s.h.base && 0 < c0 <= c1
    ensures t.a.snd.una <= t.b.rcv.rcvNxt && s.b.rcv.rcvNxt <= t.b.rcv.rcvNxt
  {
  }

  /** Some helpful continuation of s from time c on, with a clock that never runs backwards, ends with
      everything accepted delivered and acknowledged and nothing queued. */
  ghost predicate Finishes(s: Sys, c: int) {
    exists more, t, c' :: Exec(s, more) == Some(Running(t)) && Timed(more, c, c')
                          && (forall i :: 0 <= i < |more| ==> Helpful(more[i]))
                          && t.got == s.h.st && t.a.snd.una == t.a.snd.nxt && t.a.snd.cb == []
  }

  lemma GoodFinishes(s: Sys, c: int)
    requires Good(s) && c > 0
    ensures Finishes(s, c)
  {
    hide Good;
    var more, t, c' := CanFinish(s, c);
    assert Exec(s, more) == Some(Running(t)) && Timed(more, c, c');
  }
}
