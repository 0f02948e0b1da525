/** The two-party invariant and what each transition of the network does to it. */
module NetworkProofs {
  import opened TouTypes
  import opened Congestion
  import opened DelayedAck
  import opened History
  import opened SenderModel
  import opened SenderProofs
  import opened AckProofs
  import opened ReceiverModel
  import opened ReceiverProofs
  import opened ReceiverSteps
  import opened EndpointModel
  import opened Network

  // ---------------------------------------------------------------- the invariant

  ghost predicate AllDataIn(h: Hist, rn: nat, data: multiset<Packet>) {
    forall p :: p in data ==> SentOk(h, rn, p)
  }

  /** Acks in flight name boundaries, none beyond the receiver's rcv_nxt. */
  ghost predicate AcksOk(h: Hist, rcvNxt: nat, acks: multiset<Packet>) {
    forall q :: q in acks ==> q == WirePacket(q.seqNo, q.ackSeq, []) && q.ackSeq in h.cuts && q.ackSeq <= rcvNxt
  }

  function Rn(s: Sys): nat {
    s.a.rcv.rcvNxt
  }

  /** The sending half of a socket whose application sends nothing. */
  predicate Silent(s: Sender, rn: nat) {
    s.una == s.nxt == rn && s.timers == [] && s.cb == []
  }

  /** snd_una <= rcv_nxt <= snd_nxt, everything in flight is a segment, what is left of one, or an ack of a
      boundary, and both halves are sound. */
  ghost predicate Inv(s: Sys) {
    && s.a.sock == ESTABLISHED && s.b.sock == ESTABLISHED && !s.a.rcv.recovering
    && SInv(s.h, s.a.snd, Rn(s))
    && RInv(s.h, Rn(s), s.b.rcv) && Silent(s.b.snd, Rn(s))
    && s.a.snd.una <= s.b.rcv.rcvNxt
    && AllDataIn(s.h, Rn(s), s.data)
    && AcksOk(s.h, s.b.rcv.rcvNxt, s.acks)
  }

  lemma SenderSound(s: Sys)
    requires Inv(s)
    ensures SInv(s.h, s.a.snd, Rn(s))
  {
  }

  lemma InitInv(isn: nat, ack: nat, awndA: nat, awndB: nat)
    ensures Inv(Init(isn, ack, awndA, awndB))
  {
    var s := Init(isn, ack, awndA, awndB);
    assert s.h.cuts == {isn};
  }

  // ---------------------------------------------------------------- history growth

  lemma InCutsExt(h: Hist, h': Hist, una: nat, nxt: nat, rn: nat, p: Packet)
    requires CutsOk(h, una, nxt) && Ext(h, h', nxt) && SentOk(h, rn, p)
    ensures SentOk(h', rn, p)
  {
    if Mangled(h, rn, p) {
      MangledOffCut(h, rn, p);
    }
    assert p.End() in h.cuts;
    hide DataOk, Mangled;
    SentExt(h, h', nxt, rn, p);
  }

  lemma RInvExt(h: Hist, h': Hist, una: nat, nxt: nat, rn: nat, r: Receiver)
    requires CutsOk(h, una, nxt) && Ext(h, h', nxt) && RInv(h, rn, r)
    ensures RInv(h', rn, r)
  {
    forall i | 0 <= i < |r.heap|
      ensures SentOk(h', rn, r.heap[i])
    {
      InCutsExt(h, h', una, nxt, rn, r.heap[i]);
    }
    assert |h.st| <= |h'.st|;
  }

  lemma AllDataExt(h: Hist, h': Hist, una: nat, nxt: nat, rn: nat, data: multiset<Packet>)
    requires CutsOk(h, una, nxt) && Ext(h, h', nxt) && AllDataIn(h, rn, data)
    ensures AllDataIn(h', rn, data)
  {
    forall p | p in data
      ensures SentOk(h', rn, p)
    {
      InCutsExt(h, h', una, nxt, rn, p);
    }
  }

  /** A step of the sending side: sound afterwards, and all it transmits are segments or what is left of them. */
  ghost predicate SenderStep(s: Sys, h0: Hist, o: EndOut) {
    && o.EndOk?
    && o.e == s.a.(snd := o.e.snd)
    && SInv(AddSent(h0, o.out), o.e.snd, Rn(s))
    && Ext(s.h, AddSent(h0, o.out), s.a.snd.nxt)
    && o.e.snd.una <= s.b.rcv.rcvNxt && s.a.snd.una <= o.e.snd.una && s.a.snd.nxt <= o.e.snd.nxt
    && (forall p :: p in o.out ==> SentOk(AddSent(h0, o.out), Rn(s), p))
  }

  lemma SenderStepInv(s: Sys, h0: Hist, o: EndOut)
    requires Inv(s) && SenderStep(s, h0, o)
    ensures var r := StepA(s.(h := h0), o);
            r.Running? && Inv(r.s)
  {
    hide SInv, RInv, SentOk, AddSent, WirePacket, CutsOk;
    var h' := AddSent(h0, o.out);
    assert CutsOk(s.h, s.a.snd.una, s.a.snd.nxt) by {
      SInvCuts(s.h, s.a.snd, Rn(s));
    }
    RInvExt(s.h, h', s.a.snd.una, s.a.snd.nxt, Rn(s), s.b.rcv);
    AllDataExt(s.h, h', s.a.snd.una, s.a.snd.nxt, Rn(s), s.data);
    forall p | p in s.data + multiset(o.out)
      ensures SentOk(h', Rn(s), p)
    {
      assert p in s.data || p in o.out;
    }
  }

  lemma AppSendStep(s: Sys, bytes: seq<Byte>, now: int)
    requires Inv(s) && now > 0
    ensures SenderStep(s, Accept(s, bytes), TouSend(s.a, bytes, now))
    ensures TouSend(s.a, bytes, now).e.snd.una == s.a.snd.una
    ensures var o := TouSend(s.a, bytes, now);
            forall p :: p in o.out ==> DataOk(AddSent(Accept(s, bytes), o.out), Rn(s), p)
  {
    var h0 := Accept(s, bytes);
    var s0 := s.a.snd.(cb := CbInsert(s.a.snd.cb, bytes));
    QueueInv(s.h, s.a.snd, Rn(s), bytes);
    SendInv(h0, s0, Rn(s), now);
    var (s1, ps) := Send(s0, Rn(s), now);
    hide SInv, RInv, DataOk, Mangled, Send, CbInsert;
    ExtTrans(s.h, h0, AddSent(h0, ps), s.a.snd.nxt, s.a.snd.nxt);
  }

  /** Queueing bytes extends the stream and leaves every segment as it was. */
  lemma QueueAccepted(h: Hist, s: Sender, rn: nat, bytes: seq<Byte>)
    requires SInv(h, s, rn)
    ensures var h0 := h.(st := h.st + bytes);
            SInv(h0, s.(cb := s.cb + bytes), rn) && Ext(h, h0, s.nxt)
  {
    hide Tiles, KarnOk, LogOk, IsSeg, CongInv, Bytes, CutsOk, Ext;
    var h0 := h.(st := h.st + bytes);
    assert h.st <= h0.st;
    MoreStream(h, h0, s.una, s.nxt);
    LogMoreStream(h, h0, rn, s.una, s.nxt);
    KarnMoreStream(h, h0, rn, s.una, s.nxt, s.timers);
    CutsNxt(h, s.una, s.nxt);
    TilesExt(h, h0, s.nxt, s.timers, s.una, s.nxt);
    QueuedBytes(h, s.nxt, bytes);
  }

  lemma QueueInv(h: Hist, s: Sender, rn: nat, bytes: seq<Byte>)
    requires SInv(h, s, rn)
    ensures var h0 := if CbFits(s.cb, bytes) then h.(st := h.st + bytes) else h;
            SInv(h0, s.(cb := CbInsert(s.cb, bytes)), rn) && Ext(h, h0, s.nxt)
  {
    hide SInv, Ext;
    if CbFits(s.cb, bytes) {
      QueueAccepted(h, s, rn, bytes);
    } else {
      NothingAdded(h, s.nxt);
    }
  }

  lemma CutsNxt(h: Hist, una: nat, nxt: nat)
    requires CutsOk(h, una, nxt)
    ensures h.base <= nxt <= h.base + |h.st|
  {
  }

  lemma MoreStream(h: Hist, h0: Hist, una: nat, nxt: nat)
    requires CutsOk(h, una, nxt) && h.st <= h0.st && h0 == h.(st := h0.st)
    ensures CutsOk(h0, una, nxt) && Ext(h, h0, nxt)
  {
  }

  lemma LogMoreStream(h: Hist, h0: Hist, rn: nat, una: nat, nxt: nat)
    requires CutsOk(h, una, nxt) && LogOk(h, rn, una, nxt) && Ext(h, h0, nxt) && h0.log == h.log
    ensures LogOk(h0, rn, una, nxt)
  {
    hide DataOk, Mangled;
    forall p | p in h0.log
      ensures SentOk(h0, rn, p) && p.End() <= nxt && (h0.log[p] >= 2 ==> p.seqNo <= una || Mangled(h0, rn, p))
    {
      SentExt(h, h0, nxt, rn, p);
    }
  }

  lemma KarnMoreStream(h: Hist, h': Hist, rn: nat, una: nat, nxt: nat, ts: seq<Node>)
    requires Tiles(h, ts, una, nxt) && KarnOk(h, rn, una, ts) && Ext(h, h', nxt) && h'.log == h.log
    ensures KarnOk(h', rn, una, ts)
  {
    hide NodePacket;
    forall i | 0 <= i < |ts|
      ensures KarnAt(h', rn, From(ts, una, i), ts[i], i)
    {
      assert KarnAt(h, rn, From(ts, una, i), ts[i], i);
      TilesAt(h, ts, una, nxt, i);
      SegExt(h, h', nxt, From(ts, una, i), ts[i].pId, Bytes(h, From(ts, una, i), ts[i].pId));
    }
  }

  lemma QueuedBytes(h: Hist, nxt: nat, bytes: seq<Byte>)
    requires h.base <= nxt <= h.base + |h.st|
    ensures Bytes(h.(st := h.st + bytes), nxt, h.base + |h.st + bytes|) == Bytes(h, nxt, h.base + |h.st|) + bytes
  {
    var a := nxt - h.base;
    assert (h.st + bytes)[a..] == h.st[a..] + bytes;
  }

  /** An ack's transition exits exactly if it asks for a fast retransmit of a segment cut short. */
  lemma RecvAckStep(s: Sys, q: Packet, now: int)
    requires Inv(s) && now > 0 && q in s.acks
    ensures Classify(s.a, q) == P_ACK
    ensures HandlePacket(s.a, q, 0, now).EndAbort? <==> RexmitExits(s.a.snd, q.ackSeq)
    ensures var o := HandlePacket(s.a, q, 0, now);
            o.EndOk? ==> SenderStep(s, s.h, o) && o.e.snd.una == Max(s.a.snd.una, q.ackSeq)
                         && (forall p :: p in o.out ==> DataOk(AddSent(s.h, o.out), Rn(s), p))
  {
    AckClass(s, q);
    AckHandled(s.a, q, now);
    hide SInv, RInv, AckIn, DataOk, Mangled, AllDataIn, AcksOk, Classify, HandlePacket, AddSent, Ext, RexmitExits;
    AckInInv(s.h, s.a.snd, Rn(s), q.ackSeq, now);
  }

  lemma AckHandled(e: Endpoint, q: Packet, now: int)
    requires Classify(e, q) == P_ACK
    ensures HandlePacket(e, q, 0, now) == FromSnd(e, AckIn(e.snd, e.rcv.rcvNxt, q.ackSeq, now))
  {
    hide AckIn, Classify;
  }

  /** An ack in flight is never classified as an error: the exit(1) of processGetPktState is unreachable. */
  lemma AckClass(s: Sys, q: Packet)
    requires Inv(s) && q in s.acks
    ensures Classify(s.a, q) == P_ACK && q.ackSeq in s.h.cuts && q.ackSeq <= s.b.rcv.rcvNxt
  {
    hide LogOk, KarnOk, Tiles, HeapOk, DelInv, CongInv;
    assert q.ackSeq <= s.b.rcv.rcvNxt <= s.a.snd.nxt;
  }

  lemma SndTimerStep(s: Sys, now: int)
    requires Inv(s)
    ensures SenderStep(s, s.h, SndTimerScan(s.a, now))
  {
    TimeOutInv(s.h, s.a.snd, Rn(s), now);
    hide SInv, RInv, TimeOut, DataOk, Mangled;
  }

  // ---------------------------------------------------------------- the receiving side

  lemma {:induction false} AckPacketsOk(sndNxt: nat, rcvNxt: nat, n: nat)
    ensures forall q :: q in AckPackets(sndNxt, rcvNxt, n) ==> q == WirePacket(sndNxt, rcvNxt, [])
    ensures |AckPackets(sndNxt, rcvNxt, n)| == n
  {
    if n > 0 {
      AckPacketsOk(sndNxt, rcvNxt, n - 1);
    }
  }

  /** A step of the receiving side, given what it does to the receiver. */
  lemma ReceiverStepInv(s: Sys, data: multiset<Packet>, r: Receiver, n: nat)
    requires Inv(s) && RInv(s.h, Rn(s), r) && s.b.rcv.rcvNxt <= r.rcvNxt && data <= s.data
    ensures var t := s.(data := data, b := s.b.(rcv := r),
                        acks := s.acks + multiset(AckPackets(s.b.snd.nxt, r.rcvNxt, n)));
            Inv(t)
  {
    hide SInv, DataOk;
    AckPacketsOk(s.b.snd.nxt, r.rcvNxt, n);
    var out := AckPackets(s.b.snd.nxt, r.rcvNxt, n);
    forall q | q in s.acks + multiset(out)
      ensures q == WirePacket(q.seqNo, q.ackSeq, []) && q.ackSeq in s.h.cuts && q.ackSeq <= r.rcvNxt
    {
      assert q in s.acks || q in out;
    }
  }

  lemma DataClass(s: Sys, p: Packet, k: nat, now: int)
    requires Inv(s) && p in s.data && p.payload != []
    ensures SentOk(s.h, Rn(s), p)
    ensures Classify(s.b, p) == if p.seqNo == s.b.rcv.rcvNxt then P_MATCH
                                else if p.seqNo < s.b.rcv.rcvNxt then P_LESS else P_MORE
    ensures HandlePacket(s.b, p, k, now) == FromRcv(s.b, RcvData(s.b.rcv, p, k, now))
  {
    hide SInv, RInv, RcvData, AcksOk, DataOk, Mangled;
    assert SentOk(s.h, Rn(s), p);
    SentWire(s.h, Rn(s), p);
  }

  lemma SentWire(h: Hist, rn: nat, p: Packet)
    requires SentOk(h, rn, p)
    ensures p == WirePacket(p.seqNo, rn, p.payload)
  {
    if Mangled(h, rn, p) {
      MangledOffCut(h, rn, p);
    }
  }

  /** A retransmission of which nothing is left looks like a duplicate ack to the receiver's own sending half,
      which has nothing to send. */
  lemma EmptyIsAck(s: Sys, p: Packet, k: nat, now: int)
    requires Inv(s) && p in s.data && p.payload == []
    ensures var snd := s.b.snd.(cc := SetDWnd(s.b.snd.cc, true));
            HandlePacket(s.b, p, k, now) == EndOk(s.b.(snd := snd), [])
  {
    assert SentOk(s.h, Rn(s), p);
    SentWire(s.h, Rn(s), p);
    hide SInv, RInv, SetDWnd;
    SilentAck(s.b.snd, s.b.rcv.rcvNxt, Rn(s), now);
  }

  lemma SilentAck(s: Sender, rcvNxt: nat, rn: nat, now: int)
    requires Silent(s, rn)
    ensures AckIn(s, rcvNxt, rn, now) == Sent(s.(cc := SetDWnd(s.cc, true)), [])
  {
    hide SetDWnd;
    var s1 := s.(cc := SetDWnd(s.cc, true));
    assert s1.(timers := []) == s1;
    assert Send(s1, rcvNxt, now) == (s1, []);
  }

  /** A receiver step of the system, from the receiver's own step. */
  lemma StepBUnfold(s: Sys, data: multiset<Packet>, o: RcvOut)
    ensures StepB(s.(data := data), FromRcv(s.b, o)) ==
            if o.RcvAbort? then Aborted
            else Running(s.(data := data, b := s.b.(rcv := o.r),
                            acks := s.acks + multiset(AckPackets(s.b.snd.nxt, o.r.rcvNxt, o.acks))))
  {
  }

  lemma RecvDataStep(s: Sys, p: Packet, k: nat, now: int)
    requires Inv(s) && Enabled(s, RecvData(p, k, now)) && p.payload != []
    ensures var r := Next(s, RecvData(p, k, now));
            && (r.Aborted? <==> p.seqNo == s.b.rcv.rcvNxt
                                && MeetsOverlap(s.b.rcv.heap, p.End(), CbInsert(s.b.rcv.cb, p.payload)))
            && (r.Running? ==> Inv(r.s) && s.b.rcv.rcvNxt <= r.s.b.rcv.rcvNxt
                               && r.s == s.(data := s.data - multiset{p}, b := s.b.(rcv := r.s.b.rcv), acks := r.s.acks)
                               && RcvData(s.b.rcv, p, k, now).RcvOk?
                               && r.s.b.rcv == RcvData(s.b.rcv, p, k, now).r)
  {
    hide RInv, SInv, RcvData, SentOk, AcksOk, AllDataIn, MeetsOverlap, HandlePacket, FromRcv, StepB, Classify, Silent;
    DataClass(s, p, k, now);
    RcvDataInv(s.h, Rn(s), s.b.rcv, p, k, now);
    var o := RcvData(s.b.rcv, p, k, now);
    StepBUnfold(s, s.data - multiset{p}, o);
    if o.RcvOk? {
      ReceiverStepInv(s, s.data - multiset{p}, o.r, o.acks);
    }
  }

  lemma RecvEmptyStep(s: Sys, p: Packet, k: nat, now: int)
    requires Inv(s) && Enabled(s, RecvData(p, k, now)) && p.payload == []
    ensures var r := Next(s, RecvData(p, k, now));
            && r.Running? && Inv(r.s)
            && r.s == s.(data := s.data - multiset{p}, b := s.b.(snd := s.b.snd.(cc := r.s.b.snd.cc)))
  {
    EmptyIsAck(s, p, k, now);
    hide RInv, SInv, SentOk, AcksOk, HandlePacket, SetDWnd;
    var t := s.(data := s.data - multiset{p}, b := s.b.(snd := s.b.snd.(cc := SetDWnd(s.b.snd.cc, true))));
    assert s.acks + multiset([]) == s.acks;
    assert Next(s, RecvData(p, k, now)) == Running(t);
  }

  lemma ResumeStep(s: Sys, now: int)
    requires Inv(s) && Enabled(s, Resume(now))
    ensures var r := Next(s, Resume(now));
            && (r.Aborted? <==> MeetsOverlap(s.b.rcv.heap, s.b.rcv.rcvNxt, s.b.rcv.cb))
            && (r.Running? ==> Inv(r.s) && s.b.rcv.rcvNxt <= r.s.b.rcv.rcvNxt
                               && r.s == s.(b := s.b.(rcv := r.s.b.rcv), acks := r.s.acks)
                               && RecoveryStep(s.b.rcv, now).RcvOk?
                               && r.s.b.rcv == RecoveryStep(s.b.rcv, now).r)
  {
    hide RInv, SInv, RecoveryStep, AcksOk, AllDataIn, MeetsOverlap, FromRcv, StepB;
    ResumeInv(s.h, Rn(s), s.b.rcv, now);
    var o := RecoveryStep(s.b.rcv, now);
    StepBUnfold(s, s.data, o);
    if o.RcvOk? {
      ReceiverStepInv(s, s.data, o.r, o.acks);
    }
  }

  lemma RInvDel(h: Hist, rn: nat, r: Receiver, d: Delack)
    requires RInv(h, rn, r) && DelInv(d, r.rcvNxt)
    requires (d.st == DEL_IMMED <==> r.del.st == DEL_IMMED) && (d.nodes == [] <==> r.del.nodes == [])
    ensures RInv(h, rn, r.(del := d))
  {
  }

  lemma RInvDelInv(h: Hist, rn: nat, r: Receiver)
    requires RInv(h, rn, r)
    ensures DelInv(r.del, r.rcvNxt)
  {
  }

  lemma AckTimerNext(s: Sys, now: int, d: Delack, n: nat)
    requires TimerPass(s.b.rcv.del, 0, s.b.rcv.rcvNxt, now) == Some((d, n))
    ensures Next(s, AckTimer(now)) ==
            Running(s.(b := s.b.(rcv := s.b.rcv.(del := d)),
                       acks := s.acks + multiset(AckPackets(s.b.snd.nxt, s.b.rcv.rcvNxt, n))))
  {
  }

  lemma AckTimerStep(s: Sys, now: int)
    requires Inv(s)
    ensures var r := Next(s, AckTimer(now));
            && r.Running? && Inv(r.s)
            && r.s == s.(b := s.b.(rcv := r.s.b.rcv), acks := r.s.acks)
            && r.s.b.rcv == s.b.rcv.(del := r.s.b.rcv.del)
  {
    hide SInv, RInv, AllDataIn, AcksOk, DelInv, TimerPass, AckPackets, Next;
    RInvDelInv(s.h, Rn(s), s.b.rcv);
    TimerPassOne(s.b.rcv.del, s.b.rcv.rcvNxt, now);
    var x := TimerPass(s.b.rcv.del, 0, s.b.rcv.rcvNxt, now).value;
    AckTimerNext(s, now, x.0, x.1);
    RInvDel(s.h, Rn(s), s.b.rcv, x.0);
    ReceiverStepInv(s, s.data, s.b.rcv.(del := x.0), x.1);
  }

  /** An ack of rcv_nxt, if one went out. */
  function AckOf(s: Sys, rcvNxt: nat, n: nat): multiset<Packet> {
    if n == 1 then multiset{Packet(s.b.snd.nxt, rcvNxt, false, false, true, [])} else multiset{}
  }

  lemma OneAck(s: Sys, rcvNxt: nat, n: nat)
    requires n <= 1
    ensures multiset(AckPackets(s.b.snd.nxt, rcvNxt, n)) == AckOf(s, rcvNxt, n)
  {
    if n == 1 {
      assert AckPackets(s.b.snd.nxt, rcvNxt, 1) == [WirePacket(s.b.snd.nxt, rcvNxt, [])] + [];
    }
  }

  /** A data packet draws at most one ack (ReceiverSteps.AckPolicy says when), and it names the rcv_nxt the step ends
      with, not the one it began with. */
  lemma RecvDataAcks(s: Sys, p: Packet, k: nat, now: int)
    requires Inv(s) && Enabled(s, RecvData(p, k, now)) && Next(s, RecvData(p, k, now)).Running? && p.payload != []
    ensures var t, o := Next(s, RecvData(p, k, now)).s, RcvData(s.b.rcv, p, k, now);
            o.RcvOk? && o.acks <= 1 && t.acks == s.acks + AckOf(s, t.b.rcv.rcvNxt, o.acks)
  {
    assert SentOk(s.h, Rn(s), p);
    hide RInv, SInv, RcvData, SentOk, AcksOk, AllDataIn, MeetsOverlap, HandlePacket, FromRcv, StepB, Classify, Silent;
    DataClass(s, p, k, now);
    RcvDataInv(s.h, Rn(s), s.b.rcv, p, k, now);
    var o := RcvData(s.b.rcv, p, k, now);
    StepBUnfold(s, s.data - multiset{p}, o);
    OneAck(s, o.r.rcvNxt, o.acks);
  }

  /** A resumed recovery is acknowledged at once if it ends, with the new rcv_nxt, and not at all if it stalls again. */
  lemma ResumeAcks(s: Sys, now: int)
    requires Inv(s) && Enabled(s, Resume(now)) && Next(s, Resume(now)).Running?
    ensures var t := Next(s, Resume(now)).s;
            t.acks == s.acks + AckOf(s, t.b.rcv.rcvNxt, if t.b.rcv.recovering then 0 else 1)
  {
    hide RInv, SInv, RecoveryStep, AcksOk, AllDataIn, MeetsOverlap, FromRcv, StepB;
    ResumeInv(s.h, Rn(s), s.b.rcv, now);
    var o := RecoveryStep(s.b.rcv, now);
    StepBUnfold(s, s.data, o);
    OneAck(s, o.r.rcvNxt, o.acks);
  }

  /** A scan of the ack deque transmits at most one ack (DelayedAck.TimerPassOne says when), of the current rcv_nxt. */
  lemma TimerAcks(s: Sys, now: int)
    requires Inv(s)
    ensures var r, x := Next(s, AckTimer(now)), TimerPass(s.b.rcv.del, 0, s.b.rcv.rcvNxt, now);
            && x.Some? && x.value.1 <= 1 && r.Running?
            && r.s.acks == s.acks + AckOf(s, r.s.b.rcv.rcvNxt, x.value.1)
  {
    hide SInv, RInv, AllDataIn, AcksOk, DelInv, TimerPass, AckPackets, Next;
    RInvDelInv(s.h, Rn(s), s.b.rcv);
    TimerPassOne(s.b.rcv.del, s.b.rcv.rcvNxt, now);
    var x := TimerPass(s.b.rcv.del, 0, s.b.rcv.rcvNxt, now).value;
    AckTimerNext(s, now, x.0, x.1);
    OneAck(s, s.b.rcv.rcvNxt, x.1);
  }

  lemma AppRecvStep(s: Sys, n: int)
    requires Inv(s)
    ensures var r := Next(s, AppRecv(n));
            && r.Running? && Inv(r.s)
            && r.s == s.(b := s.b.(rcv := s.b.rcv.(cb := r.s.b.rcv.cb)), got := r.s.got)
            && r.s.got + r.s.b.rcv.cb == s.got + s.b.rcv.cb
            && r.s.b.rcv.cb == s.b.rcv.cb[if n <= 0 then 0 else Min(n, |s.b.rcv.cb|)..]
  {
    hide SInv, DataOk;
    var k := if n <= 0 then 0 else Min(n, |s.b.rcv.cb|);
    assert s.b.rcv.cb == s.b.rcv.cb[..k] + s.b.rcv.cb[k..];
    assert s.got + (s.b.rcv.cb[..k] + s.b.rcv.cb[k..]) == (s.got + s.b.rcv.cb[..k]) + s.b.rcv.cb[k..];
  }

  lemma NetworkStep(s: Sys, data: multiset<Packet>, acks: multiset<Packet>)
    requires Inv(s)
    requires forall p :: p in data ==> p in s.data
    requires forall p :: p in acks ==> p in s.acks
    ensures Inv(s.(data := data, acks := acks))
  {
    hide SInv, RInv, DataOk;
  }
}
