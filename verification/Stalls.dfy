/** What can no longer be delivered, and exactly when everything still can. */
module Stalls {
  import opened TouTypes
  import opened Congestion
  import opened History
  import opened SenderModel
  import opened SenderProofs
  import opened AckProofs
  import opened ReceiverModel
  import opened ReceiverProofs
  import opened ReceiverSteps
  import opened Network
  import opened NetworkProofs
  import opened EndToEnd
  import opened Deliverable
  import opened Progress

  // ---------------------------------------------------------------- a lost NUL

  /** A segment with a NUL was transmitted and is nowhere: not received, not in flight, not stored. */
  ghost predicate Gone(s: Sys, p: Packet) {
    && p in s.h.log && !NulFree(p.payload) && s.b.rcv.rcvNxt <= p.seqNo
    && p !in s.data && p !in s.b.rcv.heap
  }

  /** Mangled packets have no NUL left. */
  lemma LoggedNul(s: Sys, p: Packet)
    requires Inv(s) && p in s.h.log && !NulFree(p.payload)
    ensures DataOk(s.h, Rn(s), p) && p.payload != [] && p.End() <= s.a.snd.nxt
  {
    LogNul(s.h, s.a.snd, Rn(s), p);
  }

  lemma LogNul(h: Hist, s: Sender, rn: nat, p: Packet)
    requires SInv(h, s, rn) && p in h.log && !NulFree(p.payload)
    ensures DataOk(h, rn, p) && p.payload != [] && p.End() <= s.nxt
  {
    hide Tiles, KarnOk, IsSeg;
    assert SentOk(h, rn, p);
  }

  /** Recovery cannot pass a segment it does not have. */
  lemma {:induction false} RecoverStops(h: Hist, rn: nat, heap: seq<Packet>, r: nat, cb: seq<Byte>, p: Packet)
    requires Sorted(heap) && AllSent(h, rn, heap) && AtCut(h, r)
    requires DataOk(h, rn, p) && p !in heap && r <= p.seqNo
    ensures Recover(heap, r, cb).rcvNxt <= p.seqNo
    decreases |heap|
  {
    if heap != [] && heap[0].seqNo == r && CbFits(cb, heap[0].payload) {
      var q, tl := heap[0], heap[1..];
      hide SentOk, IsSeg, CbFits;
      AtCutData(h, rn, q);
      DataRange(h, rn, q);
      SegsInOrder(h, rn, q, p);
      assert forall x :: x in tl ==> x in heap;
      RecoverStops(h, rn, tl, q.End(), cb + q.payload, p);
    }
  }

  lemma RecoveryStops(h: Hist, rn: nat, r: Receiver, now: int, p: Packet)
    requires Sorted(r.heap) && AllSent(h, rn, r.heap) && AtCut(h, r.rcvNxt) && RecoveryStep(r, now).RcvOk?
    requires DataOk(h, rn, p) && p !in r.heap && r.rcvNxt <= p.seqNo
    ensures var t := RecoveryStep(r, now).r;
            t.rcvNxt <= p.seqNo && p !in t.heap
  {
    RecoverStops(h, rn, r.heap, r.rcvNxt, r.cb, p);
    RecoveryUnfold(r, now);
    hide Recover, RecoveryStep, DataOk, SentOk;
    RecoveryHeap(h, rn, r, now);
    assert p !in multiset(r.heap);
  }

  lemma RcvDataStops(h: Hist, rn: nat, r: Receiver, q: Packet, k: nat, now: int, p: Packet)
    requires RInv(h, rn, r) && !r.recovering && SentOk(h, rn, q) && q.payload != [] && RcvData(r, q, k, now).RcvOk?
    requires DataOk(h, rn, p) && p !in r.heap && r.rcvNxt <= p.seqNo && q != p
    ensures var t := RcvData(r, q, k, now).r;
            t.rcvNxt <= p.seqNo && p !in t.heap
  {
    hide SentOk, IsSeg, RecoveryStep, AllSent, Sorted, SendBackAck, PushPkt;
    if q.seqNo == r.rcvNxt {
      AtCutData(h, rn, q);
      SegsInOrder(h, rn, q, p);
      AfterMatch(h, rn, r, q);
      RecoveryStops(h, rn, r.(rcvNxt := q.End(), cb := CbInsert(r.cb, q.payload)), now, p);
    } else if q.seqNo > r.rcvNxt {
      PushMultiset(r.heap, q, k);
      assert p !in multiset(r.heap) + multiset{q};
      MoreKeeps(r, q, k, now);
      assert p !in multiset(PushPkt(r.heap, q, k));
    }
  }

  lemma MoreKeeps(r: Receiver, q: Packet, k: nat, now: int)
    requires q.seqNo > r.rcvNxt && RcvData(r, q, k, now).RcvOk?
    ensures var t := RcvData(r, q, k, now).r;
            t.rcvNxt == r.rcvNxt && t.heap == PushPkt(r.heap, q, k)
  {
  }

  lemma GoneRecv(s: Sys, q: Packet, k: nat, now: int, p: Packet)
    requires Inv(s) && Gone(s, p) && Enabled(s, RecvData(q, k, now)) && Next(s, RecvData(q, k, now)).Running?
    ensures Gone(Next(s, RecvData(q, k, now)).s, p)
  {
    LoggedNul(s, p);
    assert SentOk(s.h, Rn(s), q);
    hide SInv, RInv, AllDataIn, AcksOk, SentOk, DataOk, MeetsOverlap, RcvData, Next, NulFree;
    if q.payload == [] {
      RecvEmptyStep(s, q, k, now);
    } else {
      RecvDataStep(s, q, k, now);
      RcvDataStops(s.h, Rn(s), s.b.rcv, q, k, now, p);
    }
  }

  lemma GoneResume(s: Sys, now: int, p: Packet)
    requires Inv(s) && Gone(s, p) && Enabled(s, Resume(now)) && Next(s, Resume(now)).Running?
    ensures Gone(Next(s, Resume(now)).s, p)
  {
    LoggedNul(s, p);
    ResumeStep(s, now);
    hide SInv, AllDataIn, AcksOk, SentOk, DataOk, MeetsOverlap, RecoveryStep, Next, NulFree;
    RecoveryStops(s.h, Rn(s), s.b.rcv, now, p);
  }

  lemma GoneSender(s: Sys, l: Label, p: Packet)
    requires Inv(s) && Gone(s, p) && Enabled(s, l) && (l.AppSend? || l.RecvAck? || l.SndTimer?) && Next(s, l).Running?
    ensures Gone(Next(s, l).s, p)
  {
    LoggedNul(s, p);
    hide Inv, DataOk, Next, NulFree, Ext;
    var out := SenderNext(s, l);
    assert p.seqNo < s.a.snd.nxt;
    assert p !in out;
  }

  /** No step that does not abort brings it back: nothing re-sends it, and nothing passes it. */
  lemma GoneStep(s: Sys, l: Label, p: Packet)
    requires Inv(s) && Gone(s, p) && Enabled(s, l) && Next(s, l).Running?
    ensures Gone(Next(s, l).s, p)
  {
    hide Inv, Next, NulFree;
    match l
    case RecvData(q, k, now) => GoneRecv(s, q, k, now, p);
    case Resume(now) => GoneResume(s, now, p);
    case AckTimer(now) => AckTimerStep(s, now);
    case AppRecv(n) => AppRecvStep(s, n);
    case _ =>
      if l.AppSend? || l.RecvAck? || l.SndTimer? {
        GoneSender(s, l, p);
      } else {
        NetNext(s, l);
      }
  }

  /** A segment with a NUL that the network has lost is lost for good: in no continuation does rcv_nxt move past
      its start, and something stays unacknowledged for ever. */
  lemma {:induction false} LostNulIsNeverRepaired(s: Sys, ls: seq<Label>, t: Sys, p: Packet)
    requires Inv(s) && Gone(s, p) && Exec(s, ls) == Some(Running(t))
    ensures Inv(t) && Gone(t, p) && t.b.rcv.rcvNxt <= p.seqNo && t.a.snd.una < t.a.snd.nxt
    decreases |ls|
  {
    if ls == [] {
      LoggedNul(s, p);
    } else {
      hide Inv, Gone, HitsOverlap, ExitsOnNul, Next, Enabled;
      StepInv(s, ls[0]);
      GoneStep(s, ls[0], p);
      LostNulIsNeverRepaired(Next(s, ls[0]).s, ls[1..], t, p);
    }
  }

  // ---------------------------------------------------------------- a stored packet that stays

  /** p is stored where recovery cannot take it: it starts inside a segment, or its second copy is behind it. */
  ghost predicate Stuck(s: Sys, p: Packet) {
    p in s.b.rcv.heap && (Mangled(s.h, Rn(s), p) || multiset(s.b.rcv.heap)[p] >= 2)
  }

  lemma LateAsserts(heap: seq<Packet>, r: nat, cb: seq<Byte>, p: Packet)
    requires Sorted(heap) && p in heap && p.seqNo < r
    ensures Recover(heap, r, cb).res == RecAssert
  {
    var j :| 0 <= j < |heap| && heap[j] == p;
    assert heap[0].seqNo <= heap[j].seqNo;
  }

  lemma CountTail(heap: seq<Packet>, p: Packet)
    requires heap != []
    ensures multiset(heap)[p] == multiset(heap[1..])[p] + if heap[0] == p then 1 else 0
  {
    assert heap == [heap[0]] + heap[1..];
  }

  lemma RecoverTail(h: Hist, rn: nat, heap: seq<Packet>, r: nat, cb: seq<Byte>)
    requires Sorted(heap) && AllSent(h, rn, heap) && AtCut(h, r)
    requires heap != [] && heap[0].seqNo == r && CbFits(cb, heap[0].payload)
    ensures Sorted(heap[1..]) && AllSent(h, rn, heap[1..]) && AtCut(h, heap[0].End()) && r < heap[0].End()
    ensures Recover(heap, r, cb) == Recover(heap[1..], heap[0].End(), cb + heap[0].payload)
  {
    hide SentOk, DataOk;
    AtCutData(h, rn, heap[0]);
    DataRange(h, rn, heap[0]);
  }

  /** A recovery that does not abort takes no such packet. */
  lemma {:induction false} RecoverLeaves(h: Hist, rn: nat, heap: seq<Packet>, r: nat, cb: seq<Byte>, p: Packet)
    requires Sorted(heap) && AllSent(h, rn, heap) && AtCut(h, r) && Recover(heap, r, cb).res != RecAssert
    requires p in heap && (p.seqNo !in h.cuts || multiset(heap)[p] >= 2)
    ensures multiset(Recover(heap, r, cb).heap)[p] == multiset(heap)[p]
    decreases |heap|
  {
    if heap[0].seqNo == r && CbFits(cb, heap[0].payload) {
      var q, tl := heap[0], heap[1..];
      RecoverTail(h, rn, heap, r, cb);
      hide AllSent, Sorted, Recover, CbFits;
      CountTail(heap, p);
      if p == q {
        assert multiset(tl)[p] >= 1;
        LateAsserts(tl, q.End(), cb + q.payload, p);
        assert false;
      } else {
        RecoverLeaves(h, rn, tl, q.End(), cb + q.payload, p);
      }
    }
  }

  lemma RecoveryLeaves(h: Hist, rn: nat, r: Receiver, now: int, p: Packet)
    requires Sorted(r.heap) && AllSent(h, rn, r.heap) && AtCut(h, r.rcvNxt) && RecoveryStep(r, now).RcvOk?
    requires p in r.heap && (Mangled(h, rn, p) || multiset(r.heap)[p] >= 2)
    ensures multiset(RecoveryStep(r, now).r.heap)[p] == multiset(r.heap)[p]
  {
    RecoveryUnfold(r, now);
    hide Recover, RecoveryStep, SentOk;
    if Mangled(h, rn, p) {
      MangledOffCut(h, rn, p);
      StoredFull(h, rn, r.heap, p);
    }
    RecoverLeaves(h, rn, r.heap, r.rcvNxt, r.cb, p);
  }

  lemma StoredFull(h: Hist, rn: nat, heap: seq<Packet>, p: Packet)
    requires AllSent(h, rn, heap) && p in heap
    ensures p.payload != []
  {
  }

  lemma RcvDataLeaves(h: Hist, rn: nat, r: Receiver, q: Packet, k: nat, now: int, p: Packet)
    requires RInv(h, rn, r) && !r.recovering && SentOk(h, rn, q) && q.payload != [] && RcvData(r, q, k, now).RcvOk?
    requires p in r.heap && (Mangled(h, rn, p) || multiset(r.heap)[p] >= 2)
    ensures multiset(RcvData(r, q, k, now).r.heap)[p] >= multiset(r.heap)[p]
  {
    hide SentOk, IsSeg, RecoveryStep, AllSent, Sorted, SendBackAck, PushPkt;
    if q.seqNo == r.rcvNxt {
      AtCutData(h, rn, q);
      AfterMatch(h, rn, r, q);
      RecoveryLeaves(h, rn, r.(rcvNxt := q.End(), cb := CbInsert(r.cb, q.payload)), now, p);
    } else if q.seqNo > r.rcvNxt {
      PushMultiset(r.heap, q, k);
      MoreKeeps(r, q, k, now);
    }
  }

  lemma StuckRecv(s: Sys, q: Packet, k: nat, now: int, p: Packet)
    requires Inv(s) && Stuck(s, p) && Enabled(s, RecvData(q, k, now)) && Next(s, RecvData(q, k, now)).Running?
    ensures Stuck(Next(s, RecvData(q, k, now)).s, p)
  {
    assert SentOk(s.h, Rn(s), q);
    hide SInv, RInv, AllDataIn, AcksOk, SentOk, Mangled, MeetsOverlap, RcvData, Next;
    if q.payload == [] {
      RecvEmptyStep(s, q, k, now);
    } else {
      RecvDataStep(s, q, k, now);
      RcvDataLeaves(s.h, Rn(s), s.b.rcv, q, k, now, p);
      assert p in multiset(s.b.rcv.heap);
    }
  }

  lemma StuckResume(s: Sys, now: int, p: Packet)
    requires Inv(s) && Stuck(s, p) && Enabled(s, Resume(now)) && Next(s, Resume(now)).Running?
    ensures Stuck(Next(s, Resume(now)).s, p)
  {
    ResumeStep(s, now);
    hide SInv, AllDataIn, AcksOk, SentOk, Mangled, MeetsOverlap, RecoveryStep, Next;
    RecoveryLeaves(s.h, Rn(s), s.b.rcv, now, p);
    assert p in multiset(s.b.rcv.heap);
  }

  lemma StuckSender(s: Sys, l: Label, p: Packet)
    requires Inv(s) && Stuck(s, p) && Enabled(s, l) && (l.AppSend? || l.RecvAck? || l.SndTimer?) && Next(s, l).Running?
    ensures Stuck(Next(s, l).s, p)
  {
    var out := SenderNext(s, l);
    if Mangled(s.h, Rn(s), p) {
      MangledOffCut(s.h, Rn(s), p);
      assert p.End() <= s.a.snd.nxt;
      hide Inv, Next, Mangled, Ext;
      SentExt(s.h, Next(s, l).s.h, s.a.snd.nxt, Rn(s), p);
    }
  }

  lemma StuckStep(s: Sys, l: Label, p: Packet)
    requires Inv(s) && Stuck(s, p) && Enabled(s, l) && Next(s, l).Running?
    ensures Stuck(Next(s, l).s, p)
  {
    hide Inv, Next, Mangled;
    match l
    case RecvData(q, k, now) => StuckRecv(s, q, k, now, p);
    case Resume(now) => StuckResume(s, now, p);
    case AckTimer(now) => AckTimerStep(s, now);
    case AppRecv(n) => AppRecvStep(s, n);
    case _ =>
      if l.AppSend? || l.RecvAck? || l.SndTimer? {
        StuckSender(s, l, p);
      } else {
        NetNext(s, l);
      }
  }

  lemma StuckBlocks(s: Sys, p: Packet)
    requires Inv(s) && Stuck(s, p)
    ensures s.a.snd.una < s.a.snd.nxt
  {
    hide Tiles, LogOk, KarnOk, Mangled;
    var i :| 0 <= i < |s.b.rcv.heap| && s.b.rcv.heap[i] == p;
    assert SentOk(s.h, Rn(s), p) && p.payload != [] && s.b.rcv.rcvNxt <= p.seqNo;
    SentEnd(s.h, Rn(s), p);
  }

  lemma SentEnd(h: Hist, rn: nat, p: Packet)
    requires SentOk(h, rn, p)
    ensures p.End() in h.cuts
  {
    if Mangled(h, rn, p) {
      MangledOffCut(h, rn, p);
    }
  }

  /** A stored packet that recovery cannot take is never taken: what a NUL left of a retransmission, or a segment
      stored twice, keeps something unacknowledged for ever or ends the process. */
  lemma {:induction false} StuckPacketStays(s: Sys, ls: seq<Label>, t: Sys, p: Packet)
    requires Inv(s) && Stuck(s, p) && Exec(s, ls) == Some(Running(t))
    ensures Stuck(t, p) && t.a.snd.una < t.a.snd.nxt
    decreases |ls|
  {
    if ls == [] {
      StuckBlocks(s, p);
    } else {
      hide Inv, Stuck, HitsOverlap, ExitsOnNul, Next, Enabled;
      StepInv(s, ls[0]);
      StuckStep(s, ls[0], p);
      StuckPacketStays(Next(s, ls[0]).s, ls[1..], t, p);
    }
  }

  /** Such a packet is what keeps a heap from being clean. */
  lemma UncleanIsStuck(s: Sys) returns (p: Packet)
    requires Inv(s) && !Clean(s.h, Rn(s), s.b.rcv.heap)
    ensures Stuck(s, p)
  {
    var h, rn, heap := s.h, Rn(s), s.b.rcv.heap;
    assert Sorted(heap) && AllSent(h, rn, heap);
    hide Inv, DataOk, Mangled;
    if !AllData(h, rn, heap) {
      var i :| 0 <= i < |heap| && !DataOk(h, rn, heap[i]);
      return heap[i];
    }
    var i, j :| 0 <= i < j < |heap| && heap[i].seqNo >= heap[j].seqNo;
    SegsInOrder(h, rn, heap[i], heap[j]);
    CountTwo(heap, i, j);
    return heap[i];
  }

  lemma CountTwo(heap: seq<Packet>, i: nat, j: nat)
    requires i < j < |heap| && heap[i] == heap[j]
    ensures multiset(heap)[heap[i]] >= 2
  {
    assert heap == heap[..i + 1] + heap[i + 1..];
    assert heap[..i + 1][i] in multiset(heap[..i + 1]);
    assert heap[i + 1..][j - i - 1] in multiset(heap[i + 1..]);
  }

  // ---------------------------------------------------------------- what a finished history tells

  lemma {:induction false} SameStreamRun(s: Sys, ls: seq<Label>, t: Sys)
    requires Exec(s, ls) == Some(Running(t)) && forall i :: 0 <= i < |ls| ==> Helpful(ls[i])
    ensures t.h.st == s.h.st
    decreases |ls|
  {
    hide Next, Enabled, Helpful;
    if ls != [] {
      SameStream(s, ls[0]);
      SameStreamRun(Next(s, ls[0]).s, ls[1..], t);
    }
  }

  /** Everything delivered leaves no deficit. */
  lemma NoDeficitLeft(s: Sys)
    requires Inv(s) && s.got == s.h.st && s.a.snd.una == s.a.snd.nxt && s.a.snd.cb == []
    ensures Deficit(s) <= 0
  {
    QueueLength(s);
    hide SInv, RInv, AllDataIn, AcksOk;
  }

  lemma FinishedWhole(s: Sys, ls: seq<Label>, t: Sys)
    requires Inv(s) && (Delivered(s) || Deficit(s) > 0) && Exec(s, ls) == Some(Running(t))
    requires t.got == t.h.st && t.a.snd.una == t.a.snd.nxt && t.a.snd.cb == []
    ensures Delivered(s) && Clean(s.h, Rn(s), s.b.rcv.heap) && NulsOnTheirWay(s)
  {
    hide Inv, Delivered, Deficit, Clean, Exec, Stuck, Gone;
    ExecKeeps(s, ls);
    DeliveredFrom(s, ls);
    NoDeficitLeft(t);
    if !Clean(s.h, Rn(s), s.b.rcv.heap) {
      var p := UncleanIsStuck(s);
      StuckPacketStays(s, ls, t, p);
    }
    NothingGone(s, ls, t);
  }

  lemma NothingGone(s: Sys, ls: seq<Label>, t: Sys)
    requires Inv(s) && Exec(s, ls) == Some(Running(t)) && t.a.snd.una == t.a.snd.nxt
    ensures NulsOnTheirWay(s)
  {
    hide Inv, Exec;
    forall p | Gone(s, p)
      ensures false
    {
      LostNulIsNeverRepaired(s, ls, t, p);
    }
    forall p | p in s.h.log && s.b.rcv.rcvNxt <= p.seqNo && !NulFree(p.payload)
      ensures p in s.data || p in s.b.rcv.heap
    {
      assert !Gone(s, p);
    }
  }

  // ---------------------------------------------------------------- a window below MIN_SEND_SIZE

  /** Nothing has ever been transmitted, and the window never allows it. */
  predicate Shut(h: Hist, s: Sender) {
    s.cc.awnd < MIN_SEND_SIZE && s.nxt == h.base
  }

  lemma ShutSends(s: Sender, rn: nat, now: int)
    requires s.cc.awnd < MIN_SEND_SIZE && s.una == s.nxt
    ensures Send(s, rn, now) == (s, [])
  {
    AvoidanceCount(SendSize(s));
  }

  lemma ShutAck(h: Hist, s: Sender, rn: nat, ack: nat, now: int)
    requires SInv(h, s, rn) && ack in h.cuts && Shut(h, s)
    ensures var r := AckIn(s, rn, ack, now);
            r.Sent? && Shut(h, r.s)
  {
    SInvCuts(h, s, rn);
    assert ack == s.una == s.nxt;
    IdleHeap(h, s, rn);
    hide SInv, AckIn, Send;
    DupAckIdle(s, rn, now);
    ShutSends(s.(cc := SetDWnd(s.cc, true)), rn, now);
  }

  lemma ShutStep(s: Sys, l: Label)
    requires Inv(s) && Shut(s.h, s.a.snd) && Enabled(s, l) && Next(s, l).Running?
    ensures Shut(Next(s, l).s.h, Next(s, l).s.a.snd)
  {
    hide SInv, RInv, AllDataIn, AcksOk, Send, AckIn, TimeOut, RcvData, RecoveryStep;
    SenderSound(s);
    match l
    case AppSend(bytes, now) =>
      SInvCuts(s.h, s.a.snd, Rn(s));
      ShutSends(s.a.snd.(cb := CbInsert(s.a.snd.cb, bytes)), Rn(s), now);
    case RecvAck(p, now) =>
      AckClass(s, p);
      ShutAck(s.h, s.a.snd, Rn(s), p.ackSeq, now);
    case SndTimer(now) => TimeOutInv(s.h, s.a.snd, Rn(s), now);
    case _ =>
  }

  lemma {:induction false} ShutRun(s: Sys, ls: seq<Label>)
    requires Inv(s) && Shut(s.h, s.a.snd) && Exec(s, ls).Some? && Exec(s, ls).value.Running?
    ensures Shut(Exec(s, ls).value.s.h, Exec(s, ls).value.s.a.snd)
    decreases |ls|
  {
    hide Inv, Shut, HitsOverlap, ExitsOnNul, Next, Enabled;
    if ls != [] {
      StepInv(s, ls[0]);
      ShutStep(s, ls[0]);
      ShutRun(Next(s, ls[0]).s, ls[1..]);
    }
  }

  lemma StartedShut(s: Sys)
    requires Started(s) && s.a.snd.cc.awnd < MIN_SEND_SIZE
    ensures Shut(s.h, s.a.snd)
  {
  }

  /** A sender that cannot transmit has finished only if nothing was accepted. */
  lemma ShutFinished(s: Sys, ls: seq<Label>, t: Sys)
    requires Inv(s) && Shut(s.h, s.a.snd) && Exec(s, ls) == Some(Running(t)) && t.a.snd.cb == []
    ensures s.h.st == []
  {
    hide Inv, Exec;
    ShutRun(s, ls);
    ExecKeeps(s, ls);
    QueueLength(t);
  }

  lemma NothingAccepted(s: Sys, c: int)
    requires Inv(s) && s.h.st == [] && Delivered(s)
    ensures Finishes(s, c)
  {
    NothingMoved(s);
    hide Inv, Delivered;
    assert Exec(s, []) == Some(Running(s)) && Timed([], c, c);
  }

  lemma NothingMoved(s: Sys)
    requires Inv(s) && s.h.st == [] && Delivered(s)
    ensures s.got == s.h.st && s.a.snd.una == s.a.snd.nxt && s.a.snd.cb == []
  {
    UnaBounds(s);
    QueueLength(s);
    AcknowledgedIsReceived(s);
    hide Inv, Delivered, Bytes;
    assert |s.got + s.b.rcv.cb| <= 0;
  }

  // ---------------------------------------------------------------- exactly when

  /** In every history, over any network and for any bytes: some continuation delivers and acknowledges everything
      accepted, if and only if the advertised window is at least MIN_SEND_SIZE (or nothing was accepted), nothing
      was lost to a full buffer, every stored packet is a segment that is stored once, and every segment with a NUL
      that the receiver still lacks is in flight or stored. */
  lemma FullDeliveryPossibleIff(s0: Sys, ls: seq<Label>, s: Sys, c: int)
    requires Started(s0) && c > 0 && Exec(s0, ls) == Some(Running(s))
    ensures Finishes(s, c) <==>
            && (s0.a.snd.cc.awnd >= MIN_SEND_SIZE || s.h.st == [])
            && Delivered(s) && Clean(s.h, Rn(s), s.b.rcv.heap) && NulsOnTheirWay(s)
  {
    StartedInv(s0);
    StartedDelivered(s0);
    hide Inv, NoCopies, Delivered, Exec, EverOverflows, Deficit, Opened, Shut, Started, Finishes;
    hide NulsOnTheirWay, Clean;
    ExecKeeps(s0, ls);
    DeliveredFrom(s0, ls);
    if s0.a.snd.cc.awnd >= MIN_SEND_SIZE {
      StartedOpened(s0);
      OpenedRun(s0, ls);
    } else {
      StartedShut(s0);
      ShutRun(s0, ls);
    }
    if Finishes(s, c) {
      var more, t := Finished(s, c);
      FinishedWhole(s, more, t);
      if s0.a.snd.cc.awnd < MIN_SEND_SIZE {
        ShutFinished(s, more, t);
      }
    }
    if Delivered(s) && Clean(s.h, Rn(s), s.b.rcv.heap) && NulsOnTheirWay(s) {
      if s0.a.snd.cc.awnd >= MIN_SEND_SIZE {
        GoodFinishes(s, c);
      } else if s.h.st == [] {
        NothingAccepted(s, c);
      }
    }
  }

  lemma Finished(s: Sys, c: int) returns (more: seq<Label>, t: Sys)
    requires Finishes(s, c)
    ensures Exec(s, more) == Some(Running(t))
    ensures t.got == t.h.st && t.a.snd.una == t.a.snd.nxt && t.a.snd.cb == []
  {
    var ls, u, c' :| Exec(s, ls) == Some(Running(u)) && Timed(ls, c, c')
                     && (forall i :: 0 <= i < |ls| ==> Helpful(ls[i]))
                     && u.got == s.h.st && u.a.snd.una == u.a.snd.nxt && u.a.snd.cb == [];
    SameStreamRun(s, ls, u);
    more, t := ls, u;
  }
}
