/** The states from which everything accepted can still be delivered, and the steps that keep them. */
module Deliverable {
  import opened TouTypes
  import opened Congestion
  import opened History
  import opened SenderModel
  import opened SenderProofs
  import opened AckProofs
  import opened AckLaws
  import opened ReceiverModel
  import opened ReceiverProofs
  import opened ReceiverSteps
  import opened EndpointModel
  import opened Network
  import opened NetworkProofs
  import opened EndToEnd

  lemma UnaBounds(s: Sys)
    requires Inv(s)
    ensures s.h.base <= s.a.snd.una <= s.a.snd.nxt && s.a.snd.una <= s.h.base + |s.h.st|
  {
  }

  /** Every segment with a NUL that the receiver still lacks is in flight or stored: its timer node could not
      replace it. */
  ghost predicate NulsOnTheirWay(s: Sys) {
    forall p :: p in s.h.log && s.b.rcv.rcvNxt <= p.seqNo && !NulFree(p.payload) ==>
                  p in s.data || p in s.b.rcv.heap
  }

  /** The advertised window allows a transmission outside congestion avoidance, and until the first byte is
      acknowledged the sender is outside and leaves nothing queued without something in flight. */
  predicate Opened(h: Hist, s: Sender) {
    && s.cc.awnd >= MIN_SEND_SIZE
    && (s.una == h.base ==> s.cc.cc != CC_CA && (s.cb != [] ==> s.una < s.nxt))
  }

  /** States from which everything can still be delivered. */
  ghost predicate Good(s: Sys) {
    && Inv(s) && Clean(s.h, Rn(s), s.b.rcv.heap) && Opened(s.h, s.a.snd)
    && Delivered(s) && NulsOnTheirWay(s)
  }

  /** The network loses and duplicates nothing, and the sending application adds nothing. */
  predicate Helpful(l: Label) {
    l.AppRecv? || l.RecvData? || l.Resume? || l.RecvAck? || l.SndTimer? || l.AckTimer?
  }

  /** A helpful step that takes data only in sequence and into room, and no ack that ends the process. */
  predicate Careful(s: Sys, l: Label) {
    && Helpful(l) && !ExitsOnNul(s, l)
    && (l.RecvData? ==> l.p.payload != [] && l.p.seqNo == s.b.rcv.rcvNxt && CbFits(s.b.rcv.cb, l.p.payload))
  }

  lemma SameStream(s: Sys, l: Label)
    requires Helpful(l)
    ensures Next(s, l).Running? ==> Next(s, l).s.h.st == s.h.st && Next(s, l).s.h.base == s.h.base
  {
    hide HandlePacket, TouRecv, ResumeRun, SndTimerScan, AckTimerScan;
  }

  // ---------------------------------------------------------------- the window

  /** An idle sender outside congestion avoidance transmits. */
  lemma OutsideSends(s: Sender, rn: nat, now: int)
    requires CongInv(s.cc) && s.cc.awnd >= MIN_SEND_SIZE && s.cc.cc != CC_CA && s.una == s.nxt && s.cb != []
    ensures s.una < Send(s, rn, now).0.nxt
  {
    SendsWhenIdleIff(s, rn, now);
    SendSafe(s, rn, now);
    assert |Payloads(Send(s, rn, now).1)| > 0;
  }

  lemma OpenedAppSend(s: Sys, bytes: seq<Byte>, now: int)
    requires Inv(s) && Opened(s.h, s.a.snd) && now > 0
    ensures var r := Next(s, AppSend(bytes, now));
            r.Running? && Opened(r.s.h, r.s.a.snd)
  {
    SInvCong(s.h, s.a.snd, Rn(s));
    hide Inv, Send, CongInv, CbInsert;
    var s0 := s.a.snd.(cb := CbInsert(s.a.snd.cb, bytes));
    SendSafe(s0, Rn(s), now);
    if s0.una == s0.nxt && s0.cb != [] && s0.cc.cc != CC_CA {
      OutsideSends(s0, Rn(s), now);
    }
  }

  lemma OpenedDup(h: Hist, s: Sender, rn: nat, now: int)
    requires Opened(h, s) && AckIn(s, rn, s.una, now).Sent?
    ensures Opened(h, AckIn(s, rn, s.una, now).s)
  {
    DupAckUnfold(s, rn, now);
    hide AckIn, Send, FastRexmit;
    var s1 := s.(cc := SetDWnd(s.cc, true));
    SendSafe(s1, rn, now);
    var fr := FastRexmit(s.timers, s.una, rn, s.rto, now);
    if fr.Some? {
      SendSafe(s1.(timers := fr.value.0), rn, now);
    }
  }

  lemma OpenedAck(h: Hist, s: Sender, rn: nat, ack: nat, now: int)
    requires SInv(h, s, rn) && ack in h.cuts && now > 0 && Opened(h, s) && AckIn(s, rn, ack, now).Sent?
    ensures Opened(h, AckIn(s, rn, ack, now).s)
  {
    SInvCuts(h, s, rn);
    if ack == s.una {
      OpenedDup(h, s, rn, now);
    } else {
      AckInInv(h, s, rn, ack, now);
      hide SInv, AckIn, AddSent, Ext;
    }
  }

  lemma TimerNext(s: Sys, now: int)
    requires TimeOut(s.a.snd, Rn(s), now).Sent?
    ensures var o := TimeOut(s.a.snd, Rn(s), now);
            Next(s, SndTimer(now)) ==
            Running(s.(a := s.a.(snd := o.s), data := s.data + multiset(o.pkts), h := AddSent(s.h, o.pkts)))
  {
    hide TimeOut, AddSent;
  }

  lemma TimeOutWindow(s: Sender, rn: nat, now: int)
    ensures var r := TimeOut(s, rn, now);
            r.Sent? ==> r.s.cc == s.cc || r.s.cc == SetTWnd(s.cc)
  {
    hide ClearTimer, HeapPush, Postpone, SetTWnd;
  }

  lemma OpenedTimer(s: Sys, now: int)
    requires Inv(s) && Opened(s.h, s.a.snd)
    ensures var r := Next(s, SndTimer(now));
            r.Running? && Opened(r.s.h, r.s.a.snd)
  {
    hide Inv, SInv, Ext, DataOk, Mangled, SentOk, TimeOut, NodePacket, FrontCut, Next;
    SenderSound(s);
    TimeOutInv(s.h, s.a.snd, Rn(s), now);
    TimeOutWindow(s.a.snd, Rn(s), now);
    TimerNext(s, now);
  }

  lemma OpenedSame(h: Hist, h': Hist, s: Sender)
    requires h.base == h'.base && Opened(h, s)
    ensures Opened(h', s)
  {
  }

  lemma OpenedStep(s: Sys, l: Label)
    requires Inv(s) && Opened(s.h, s.a.snd) && Enabled(s, l) && Next(s, l).Running?
    ensures Opened(Next(s, l).s.h, Next(s, l).s.a.snd)
  {
    hide SInv, RInv, AllDataIn, AcksOk, Send, AckIn, TimeOut, RcvData, RecoveryStep, Opened;
    SenderSound(s);
    match l
    case AppSend(bytes, now) => OpenedAppSend(s, bytes, now);
    case RecvAck(p, now) =>
      AckClass(s, p);
      OpenedAck(s.h, s.a.snd, Rn(s), p.ackSeq, now);
      OpenedSame(s.h, Next(s, l).s.h, AckIn(s.a.snd, Rn(s), p.ackSeq, now).s);
    case SndTimer(now) => OpenedTimer(s, now);
    case _ => OpenedSame(s.h, Next(s, l).s.h, s.a.snd);
  }

  lemma {:induction false} OpenedRun(s: Sys, ls: seq<Label>)
    requires Inv(s) && Opened(s.h, s.a.snd) && Exec(s, ls).Some? && Exec(s, ls).value.Running?
    ensures Opened(Exec(s, ls).value.s.h, Exec(s, ls).value.s.a.snd)
    decreases |ls|
  {
    hide Inv, Opened, HitsOverlap, ExitsOnNul, Next, Enabled;
    if ls != [] {
      StepInv(s, ls[0]);
      OpenedStep(s, ls[0]);
      OpenedRun(Next(s, ls[0]).s, ls[1..]);
    }
  }

  lemma StartedOpened(s: Sys)
    requires Started(s) && s.a.snd.cc.awnd >= MIN_SEND_SIZE
    ensures Opened(s.h, s.a.snd)
  {
  }

  // ---------------------------------------------------------------- what the sending side adds

  lemma AppSendNew(e: Endpoint, bytes: seq<Byte>, now: int)
    ensures forall q :: q in TouSend(e, bytes, now).out ==> e.snd.nxt <= q.seqNo
  {
    var s0 := e.snd.(cb := CbInsert(e.snd.cb, bytes));
    SendSafe(s0, e.rcv.rcvNxt, now);
    ConsecutiveNew(Send(s0, e.rcv.rcvNxt, now).1, e.snd.nxt);
  }

  lemma NodeText(h: Hist, s: Sender, rn: nat)
    requires SInv(h, s, rn) && s.timers != []
    ensures NulFree(NodePacket(s.timers[0], rn).payload)
  {
    TilesAt(h, s.timers, s.una, s.nxt, 0);
  }

  lemma TimerNew(s: Sys, now: int)
    requires Inv(s)
    ensures SndTimerScan(s.a, now).EndOk?
    ensures forall q :: q in SndTimerScan(s.a, now).out ==> NulFree(q.payload)
  {
    hide SInv, RInv, AllDataIn, AcksOk, TimeOut, DataOk, Mangled, SentOk, Ext, NodePacket, NulFree;
    TimeOutInv(s.h, s.a.snd, Rn(s), now);
    if s.a.snd.timers != [] {
      NodeText(s.h, s.a.snd, Rn(s));
    }
  }

  lemma AckInNew(h: Hist, s: Sender, rn: nat, ack: nat, now: int)
    requires SInv(h, s, rn) && AckIn(s, rn, ack, now).Sent?
    ensures forall q :: q in AckIn(s, rn, ack, now).pkts ==> NulFree(q.payload) || s.nxt <= q.seqNo
  {
    hide SInv, Send, FastRexmit, ClearByAck, CalRto, NulFree, SetDWnd, AddWnd, Ext, DataOk, AddSent, NodePacket;
    if ack == s.una {
      var s1 := s.(cc := SetDWnd(s.cc, true));
      var fr := if CkNumDupack(s1.cc) then FastRexmit(s.timers, ack, rn, s.rto, now) else Some((s.timers, []));
      FastRexmitInv(h, s, rn, now);
      if s.timers != [] {
        NodeText(h, s, rn);
      }
      SendNew(s1.(timers := fr.value.0), rn, now);
    } else {
      var s1 := s.(cc := AddWnd(s.cc));
      SendNew(if ack > s.una then Advance(s1, ack, now) else s1, rn, now);
    }
  }

  lemma AckNew(s: Sys, p: Packet, now: int)
    requires Inv(s) && p in s.acks && HandlePacket(s.a, p, 0, now).EndOk?
    ensures forall q :: q in HandlePacket(s.a, p, 0, now).out ==> NulFree(q.payload) || s.a.snd.nxt <= q.seqNo
  {
    AckClass(s, p);
    AckHandled(s.a, p, now);
    hide SInv, RInv, AllDataIn, AcksOk, AckIn, HandlePacket, Classify;
    AckInNew(s.h, s.a.snd, Rn(s), p.ackSeq, now);
  }

  /** What a step of the sending side adds enters the network and the log; it is new data or has no NUL. */
  lemma SenderNext(s: Sys, l: Label) returns (out: seq<Packet>)
    requires Inv(s) && Enabled(s, l) && (l.AppSend? || l.RecvAck? || l.SndTimer?) && Next(s, l).Running?
    ensures var t := Next(s, l).s;
            && t.b == s.b && Rn(t) == Rn(s)
            && t.data == s.data + multiset(out) && t.h.log == s.h.log + multiset(out)
            && Ext(s.h, t.h, s.a.snd.nxt)
    ensures forall q :: q in out ==> NulFree(q.payload) || s.a.snd.nxt <= q.seqNo
  {
    hide SInv, RInv, AllDataIn, AcksOk, HandlePacket, TouSend, SndTimerScan, Ext, RexmitExits, SentOk, DataOk;
    match l
    case AppSend(bytes, now) =>
      AppSendStep(s, bytes, now);
      AppSendNew(s.a, bytes, now);
      out := TouSend(s.a, bytes, now).out;
    case RecvAck(p, now) =>
      RecvAckStep(s, p, now);
      AckNew(s, p, now);
      AckNext(s, p, now);
      out := HandlePacket(s.a, p, 0, now).out;
    case SndTimer(now) =>
      SndTimerStep(s, now);
      TimerNew(s, now);
      out := SndTimerScan(s.a, now).out;
  }

  // ---------------------------------------------------------------- one step

  lemma CleanSender(s: Sys, t: Sys)
    requires Inv(s) && Clean(s.h, Rn(s), s.b.rcv.heap) && t.b == s.b && Rn(t) == Rn(s) && Ext(s.h, t.h, s.a.snd.nxt)
    ensures Clean(t.h, Rn(t), t.b.rcv.heap)
  {
    SInvCuts(s.h, s.a.snd, Rn(s));
    hide SInv, RInv, Clean, Ext, CutsOk;
    CleanExt(s.h, t.h, s.a.snd.una, s.a.snd.nxt, Rn(s), s.b.rcv.heap);
  }

  /** A packet that is next in line is a segment. */
  lemma LineIsData(s: Sys, p: Packet)
    requires Inv(s) && p in s.data && p.payload != [] && p.seqNo == s.b.rcv.rcvNxt
    ensures DataOk(s.h, Rn(s), p)
  {
    assert SentOk(s.h, Rn(s), p);
    hide SInv, SentOk;
    AtCutData(s.h, Rn(s), p);
  }

  lemma CleanRecv(s: Sys, p: Packet, k: nat, now: int)
    requires Inv(s) && Clean(s.h, Rn(s), s.b.rcv.heap) && Enabled(s, RecvData(p, k, now))
    requires p.payload != [] && p.seqNo == s.b.rcv.rcvNxt
    ensures Next(s, RecvData(p, k, now)).Running?
    ensures var t := Next(s, RecvData(p, k, now)).s;
            t.h == s.h && Rn(t) == Rn(s) && Clean(t.h, Rn(t), t.b.rcv.heap)
  {
    LineIsData(s, p);
    hide Inv, Clean, DataOk, MeetsOverlap, Next, RcvData;
    NoCopiesHeap(s, p, k, now);
    RecvDataStep(s, p, k, now);
  }

  lemma CleanResume(s: Sys, now: int)
    requires Inv(s) && Clean(s.h, Rn(s), s.b.rcv.heap) && Enabled(s, Resume(now))
    ensures Next(s, Resume(now)).Running?
    ensures var t := Next(s, Resume(now)).s;
            t.h == s.h && Rn(t) == Rn(s) && Clean(t.h, Rn(t), t.b.rcv.heap)
  {
    ResumeInv(s.h, Rn(s), s.b.rcv, now);
    hide Inv, Clean, MeetsOverlap, RecoveryStep, Next;
    ResumeStep(s, now);
  }

  lemma CleanStep(s: Sys, l: Label)
    requires Inv(s) && Clean(s.h, Rn(s), s.b.rcv.heap) && Enabled(s, l) && Careful(s, l)
    ensures Next(s, l).Running?
    ensures var t := Next(s, l).s;
            Clean(t.h, Rn(t), t.b.rcv.heap)
  {
    hide Inv, Clean, RexmitExits, MeetsOverlap, Next, RcvData, RecoveryStep;
    StepInv(s, l);
    match l
    case RecvData(p, k, now) => CleanRecv(s, p, k, now);
    case Resume(now) => CleanResume(s, now);
    case AckTimer(now) => AckTimerStep(s, now);
    case AppRecv(n) => AppRecvStep(s, n);
    case _ =>
      var out := SenderNext(s, l);
      CleanSender(s, Next(s, l).s);
  }

  /** Nothing that is still missing leaves the heap. */
  lemma MatchTaken(s: Sys, p: Packet, k: nat, now: int)
    requires Inv(s) && Enabled(s, RecvData(p, k, now)) && p.payload != [] && p.seqNo == s.b.rcv.rcvNxt
    requires RcvData(s.b.rcv, p, k, now).RcvOk?
    ensures var r := RcvData(s.b.rcv, p, k, now).r;
            && p.seqNo < r.rcvNxt
            && forall q :: q in s.b.rcv.heap ==> q in r.heap || q.seqNo < r.rcvNxt
  {
    LineIsData(s, p);
    hide SInv, AllDataIn, AcksOk, IsSeg;
    AfterMatch(s.h, Rn(s), s.b.rcv, p);
    var r1 := s.b.rcv.(rcvNxt := p.End(), cb := CbInsert(s.b.rcv.cb, p.payload));
    RecoveryTaken(s.h, Rn(s), r1, now);
  }

  lemma ResumeTaken(s: Sys, now: int)
    requires Inv(s) && RecoveryStep(s.b.rcv, now).RcvOk?
    ensures var r := RecoveryStep(s.b.rcv, now).r;
            forall q :: q in s.b.rcv.heap ==> q in r.heap || q.seqNo < r.rcvNxt
  {
    hide SInv, AllDataIn, AcksOk, IsSeg;
    RecoveryTaken(s.h, Rn(s), s.b.rcv, now);
  }

  lemma OnTheirWayStep(s: Sys, l: Label)
    requires Inv(s) && NulsOnTheirWay(s) && Enabled(s, l) && Careful(s, l) && Next(s, l).Running?
    ensures NulsOnTheirWay(Next(s, l).s)
  {
    hide Inv, RexmitExits, MeetsOverlap, Next, RcvData, RecoveryStep, NulFree;
    var t := Next(s, l).s;
    match l
    case RecvData(p, k, now) =>
      RecvDataStep(s, p, k, now);
      MatchTaken(s, p, k, now);
    case Resume(now) =>
      ResumeStep(s, now);
      ResumeTaken(s, now);
    case AckTimer(now) => AckTimerStep(s, now);
    case AppRecv(n) => AppRecvStep(s, n);
    case _ =>
      var out := SenderNext(s, l);
  }

  lemma GoodStep(s: Sys, l: Label)
    requires Good(s) && Enabled(s, l) && Careful(s, l)
    ensures Next(s, l).Running?
    ensures var t := Next(s, l).s;
            && Good(t) && t.h.st == s.h.st && t.h.base == s.h.base
            && s.a.snd.una <= t.a.snd.una && s.b.rcv.rcvNxt <= t.b.rcv.rcvNxt
  {
    SameStream(s, l);
    assert !Overflows(s, l);
    hide Inv, Clean, Opened, Delivered, HitsOverlap, ExitsOnNul, Overflows, Enabled, NulsOnTheirWay, Next;
    StepInv(s, l);
    CleanStep(s, l);
    OnTheirWayStep(s, l);
    OpenedStep(s, l);
    GainStep(s, l);
  }
}
