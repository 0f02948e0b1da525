/** Theorems over whole histories of the two-party system. */
module EndToEnd {
  import opened TouTypes
  import opened History
  import opened SenderModel
  import opened AckProofs
  import opened ReceiverModel
  import opened ReceiverProofs
  import opened ReceiverSteps
  import opened Reassembly
  import opened EndpointModel
  import opened Network
  import opened NetworkProofs

  // ---------------------------------------------------------------- one step

  /** The step hands the assertion in do_proc_pkt_rec a packet that overlaps what recovery has just taken. */
  ghost predicate HitsOverlap(s: Sys, l: Label) {
    match l
    case RecvData(p, _, _) =>
      && p.payload != [] && p.seqNo == s.b.rcv.rcvNxt
      && MeetsOverlap(s.b.rcv.heap, p.End(), CbInsert(s.b.rcv.cb, p.payload))
    case Resume(_) => MeetsOverlap(s.b.rcv.heap, s.b.rcv.rcvNxt, s.b.rcv.cb)
    case _ => false
  }

  /** The ack asks for a fast retransmit of a segment whose timer node was cut short at a NUL. */
  predicate ExitsOnNul(s: Sys, l: Label) {
    l.RecvAck? && RexmitExits(s.a.snd, l.p.ackSeq)
  }

  /** The timer fires on a segment whose node was cut short, and something is left of it to re-send. */
  predicate Mangles(s: Sys, l: Label) {
    l.SndTimer? && FrontCut(s.a.snd) && s.a.snd.timers[0].ms < l.now && s.a.snd.timers[0].payload != []
  }

  ghost predicate Forward(s: Sys, t: Sys) {
    && s.a.snd.una <= t.a.snd.una && s.a.snd.nxt <= t.a.snd.nxt && s.b.rcv.rcvNxt <= t.b.rcv.rcvNxt
    && s.got <= t.got && s.h.st <= t.h.st && s.h.base == t.h.base
  }

  lemma SenderForward(s: Sys, h0: Hist, o: EndOut)
    requires Inv(s) && SenderStep(s, h0, o)
    ensures Forward(s, StepA(s.(h := h0), o).s)
  {
    hide SInv, RInv, DataOk;
  }

  lemma StepInvA(s: Sys, l: Label)
    requires Inv(s) && Enabled(s, l) && (l.AppSend? || l.RecvAck? || l.SndTimer?)
    ensures Next(s, l).Aborted? <==> ExitsOnNul(s, l)
    ensures Next(s, l).Running? ==> Inv(Next(s, l).s) && Forward(s, Next(s, l).s)
  {
    hide SInv, RInv, AllDataIn, AcksOk, SenderStep, Inv, RexmitExits;
    match l
    case AppSend(bytes, now) =>
      AppSendStep(s, bytes, now);
      SenderStepInv(s, Accept(s, bytes), TouSend(s.a, bytes, now));
      SenderForward(s, Accept(s, bytes), TouSend(s.a, bytes, now));
    case RecvAck(p, now) =>
      RecvAckStep(s, p, now);
      if !RexmitExits(s.a.snd, p.ackSeq) {
        AcksAfterRecv(s, p, now);
      }
    case SndTimer(now) =>
      SndTimerStep(s, now);
      SenderStepInv(s, s.h, SndTimerScan(s.a, now));
      SenderForward(s, s.h, SndTimerScan(s.a, now));
  }

  lemma StepInvNet(s: Sys, l: Label)
    requires Inv(s) && Enabled(s, l) && (l.LoseData? || l.LoseAck? || l.DupData? || l.DupAck?)
    ensures Next(s, l).Running? && Inv(Next(s, l).s) && Forward(s, Next(s, l).s)
  {
    hide Inv, Next;
    NetNext(s, l);
    NetworkStep(s, NetData(s, l), NetAcks(s, l));
  }

  lemma NetNext(s: Sys, l: Label)
    requires Enabled(s, l) && (l.LoseData? || l.LoseAck? || l.DupData? || l.DupAck?)
    ensures Next(s, l) == Running(s.(data := NetData(s, l), acks := NetAcks(s, l)))
    ensures forall p :: p in NetData(s, l) ==> p in s.data
    ensures forall p :: p in NetAcks(s, l) ==> p in s.acks
  {
  }

  function NetData(s: Sys, l: Label): multiset<Packet> {
    if l.LoseData? then s.data - multiset{l.p} else if l.DupData? then s.data + multiset{l.p} else s.data
  }

  function NetAcks(s: Sys, l: Label): multiset<Packet> {
    if l.LoseAck? then s.acks - multiset{l.p} else if l.DupAck? then s.acks + multiset{l.p} else s.acks
  }

  /** No transition of either socket reaches an exit(1), a failed assertion or a division by zero, except the
      assertion in do_proc_pkt_rec, exactly on an overlapping packet, and the exit of a fast retransmit, exactly
      on a segment cut short; every other step keeps the invariant, whatever bytes the applications send, and
      moves snd_una, snd_nxt and rcv_nxt only forward. */
  lemma StepInv(s: Sys, l: Label)
    requires Inv(s) && Enabled(s, l)
    ensures Next(s, l).Aborted? <==> HitsOverlap(s, l) || ExitsOnNul(s, l)
    ensures Next(s, l).Running? ==> Inv(Next(s, l).s) && Forward(s, Next(s, l).s)
  {
    hide Inv, MeetsOverlap, Next;
    match l
    case RecvData(p, k, now) =>
      if p.payload == [] {
        RecvEmptyStep(s, p, k, now);
      } else {
        RecvDataStep(s, p, k, now);
      }
    case Resume(now) => ResumeStep(s, now);
    case AckTimer(now) => AckTimerStep(s, now);
    case AppRecv(n) => AppRecvForward(s, n);
    case _ =>
      if l.AppSend? || l.RecvAck? || l.SndTimer? {
        StepInvA(s, l);
      } else {
        StepInvNet(s, l);
      }
  }

  lemma AppRecvForward(s: Sys, n: int)
    requires Inv(s)
    ensures Next(s, AppRecv(n)).Running? && Inv(Next(s, AppRecv(n)).s) && Forward(s, Next(s, AppRecv(n)).s)
  {
    hide Inv;
    AppRecvStep(s, n);
  }

  lemma AcksAfterRecv(s: Sys, p: Packet, now: int)
    requires Inv(s) && p in s.acks && SenderStep(s, s.h, HandlePacket(s.a, p, 0, now))
    ensures var r := Next(s, RecvAck(p, now));
            r.Running? && Inv(r.s) && Forward(s, r.s)
  {
    hide SInv, RInv, DataOk, HandlePacket;
    var s0 := s.(acks := s.acks - multiset{p});
    NetworkStep(s, s.data, s0.acks);
    assert s0 == s.(data := s.data, acks := s0.acks);
    assert s0.(h := s.h) == s0;
    SenderStepInv(s0, s.h, HandlePacket(s.a, p, 0, now));
    SenderForward(s0, s.h, HandlePacket(s.a, p, 0, now));
  }

  // ---------------------------------------------------------------- no duplication, no abort

  /** Every packet in flight or in the out-of-order heap is a segment, or nothing is left of it; it is there at
      most as often as it was sent; and the heap holds none twice. */
  ghost predicate NoCopies(s: Sys) {
    && Clean(s.h, Rn(s), s.b.rcv.heap)
    && Unmangled(s.h, Rn(s), s.data)
    && Counted(s.data, s.b.rcv.heap, s.h.log)
  }

  ghost predicate Unmangled(h: Hist, rn: nat, data: multiset<Packet>) {
    forall p :: p in data ==> p.payload == [] || DataOk(h, rn, p)
  }

  ghost predicate Counted(data: multiset<Packet>, heap: seq<Packet>, log: multiset<Packet>) {
    forall p :: data[p] + multiset(heap)[p] <= log[p]
  }

  lemma CountedMore(data: multiset<Packet>, heap: seq<Packet>, log: multiset<Packet>, out: multiset<Packet>)
    requires Counted(data, heap, log)
    ensures Counted(data + out, heap, log + out)
  {
    forall p
      ensures (data + out)[p] + multiset(heap)[p] <= (log + out)[p]
    {
      assert data[p] + multiset(heap)[p] <= log[p];
    }
  }

  lemma CountedLess(data: multiset<Packet>, heap: seq<Packet>, data': multiset<Packet>, heap': seq<Packet>,
                    log: multiset<Packet>)
    requires Counted(data, heap, log) && data' + multiset(heap') <= data + multiset(heap)
    ensures Counted(data', heap', log)
  {
    forall p
      ensures data'[p] + multiset(heap')[p] <= log[p]
    {
      assert data[p] + multiset(heap)[p] <= log[p];
      assert (data' + multiset(heap'))[p] <= (data + multiset(heap))[p];
    }
  }

  lemma UnmangledMore(h: Hist, h': Hist, una: nat, nxt: nat, rn: nat, data: multiset<Packet>, out: seq<Packet>)
    requires CutsOk(h, una, nxt) && Ext(h, h', nxt) && Unmangled(h, rn, data)
    requires forall p :: p in out ==> p.payload == [] || DataOk(h', rn, p)
    ensures Unmangled(h', rn, data + multiset(out))
  {
    hide CutsOk, Ext, DataOk;
    forall p | p in data + multiset(out)
      ensures p.payload == [] || DataOk(h', rn, p)
    {
      if p in data && p.payload != [] {
        DataExt(h, h', una, nxt, rn, p);
      } else {
        assert p in data || p in out;
      }
    }
  }

  lemma FreshOutOfOrder(s: Sys, p: Packet)
    requires Inv(s) && NoCopies(s) && p in s.data && p.payload != [] && s.b.rcv.rcvNxt < p.seqNo
    ensures p !in s.b.rcv.heap
  {
    hide RInv, AcksOk, Clean;
    assert s.data[p] + multiset(s.b.rcv.heap)[p] <= s.h.log[p];
    LoggedTwice(s.h, s.a.snd, Rn(s), p);
    assert p in s.b.rcv.heap <==> p in multiset(s.b.rcv.heap);
  }

  lemma LoggedTwice(h: Hist, s: Sender, rn: nat, p: Packet)
    requires SInv(h, s, rn) && DataOk(h, rn, p)
    ensures h.log[p] >= 2 ==> p.seqNo <= s.una
  {
    if Mangled(h, rn, p) {
      MangledOffCut(h, rn, p);
    }
    hide DataOk, Mangled;
    assert h.log[p] >= 2 ==> p in h.log;
  }

  lemma CleanExt(h: Hist, h': Hist, una: nat, nxt: nat, rn: nat, heap: seq<Packet>)
    requires CutsOk(h, una, nxt) && Ext(h, h', nxt) && Clean(h, rn, heap)
    ensures Clean(h', rn, heap)
  {
    forall i | 0 <= i < |heap|
      ensures DataOk(h', rn, heap[i])
    {
      DataExt(h, h', una, nxt, rn, heap[i]);
    }
  }

  lemma DataExt(h: Hist, h': Hist, una: nat, nxt: nat, rn: nat, p: Packet)
    requires CutsOk(h, una, nxt) && Ext(h, h', nxt) && DataOk(h, rn, p)
    ensures DataOk(h', rn, p)
  {
    assert p.End() in h.cuts;
    SegExt(h, h', nxt, p.seqNo, p.End(), p.payload);
  }

  lemma NoCopiesSend(s: Sys, h0: Hist, o: EndOut)
    requires Inv(s) && NoCopies(s) && h0.log == s.h.log && SenderStep(s, h0, o)
    requires forall p :: p in o.out ==> p.payload == [] || DataOk(AddSent(h0, o.out), Rn(s), p)
    ensures NoCopies(StepA(s.(h := h0), o).s)
  {
    SInvCuts(s.h, s.a.snd, Rn(s));
    hide Inv, DataOk, SentOk, CutsOk, Ext, Clean, AddSent, Counted, Unmangled, SInv;
    var h' := AddSent(h0, o.out);
    CleanExt(s.h, h', s.a.snd.una, s.a.snd.nxt, Rn(s), s.b.rcv.heap);
    UnmangledMore(s.h, h', s.a.snd.una, s.a.snd.nxt, Rn(s), s.data, o.out);
    CountedMore(s.data, s.b.rcv.heap, s.h.log, multiset(o.out));
    assert h'.log == h0.log + multiset(o.out) by {
      SentLog(h0, o.out);
    }
  }

  lemma SentLog(h: Hist, ps: seq<Packet>)
    ensures AddSent(h, ps).log == h.log + multiset(ps)
  {
  }

  lemma NoCopiesHeap(s: Sys, p: Packet, k: nat, now: int)
    requires Inv(s) && DataOk(s.h, Rn(s), p) && !s.b.rcv.recovering
    requires Clean(s.h, Rn(s), s.b.rcv.heap) && (s.b.rcv.rcvNxt < p.seqNo ==> p !in s.b.rcv.heap)
    ensures var o := RcvData(s.b.rcv, p, k, now);
            && o.RcvOk? && Clean(s.h, Rn(s), o.r.heap)
            && multiset(o.r.heap) <= multiset(s.b.rcv.heap) + multiset{p}
            && (p.seqNo == s.b.rcv.rcvNxt ==> !MeetsOverlap(s.b.rcv.heap, p.End(), CbInsert(s.b.rcv.cb, p.payload)))
  {
    hide SInv, RInv, Clean, MeetsOverlap, RcvData, AcksOk, AllDataIn;
    assert p.payload != [];
    hide DataOk;
    RcvDataInv(s.h, Rn(s), s.b.rcv, p, k, now);
    RcvDataHeap(s.h, Rn(s), s.b.rcv, p, k, now);
  }

  lemma NoCopiesRecv(s: Sys, p: Packet, k: nat, now: int)
    requires Inv(s) && NoCopies(s) && Enabled(s, RecvData(p, k, now)) && p.payload != []
    ensures Next(s, RecvData(p, k, now)).Running? && NoCopies(Next(s, RecvData(p, k, now)).s)
  {
    hide Inv, HandlePacket, Clean, DataOk, RcvData, MeetsOverlap, Next;
    if s.b.rcv.rcvNxt < p.seqNo {
      FreshOutOfOrder(s, p);
    }
    assert DataOk(s.h, Rn(s), p);
    NoCopiesHeap(s, p, k, now);
    RecvDataStep(s, p, k, now);
    var t := Next(s, RecvData(p, k, now)).s;
    CountedLess(s.data, s.b.rcv.heap, t.data, t.b.rcv.heap, s.h.log);
  }

  lemma NoCopiesLess(s: Sys, t: Sys)
    requires NoCopies(s) && t.h == s.h && Rn(t) == Rn(s) && t.data <= s.data
    requires t.b.rcv.heap == s.b.rcv.heap
             || (Clean(s.h, Rn(s), t.b.rcv.heap) && multiset(t.b.rcv.heap) <= multiset(s.b.rcv.heap))
    ensures NoCopies(t)
  {
    hide Clean, DataOk, Counted;
    CountedLess(s.data, s.b.rcv.heap, t.data, t.b.rcv.heap, s.h.log);
  }

  lemma NoCopiesResume(s: Sys, now: int)
    requires Inv(s) && NoCopies(s) && Enabled(s, Resume(now))
    ensures Next(s, Resume(now)).Running? && NoCopies(Next(s, Resume(now)).s)
  {
    ResumeInv(s.h, Rn(s), s.b.rcv, now);
    RecoveryHeap(s.h, Rn(s), s.b.rcv, now);
    assert Clean(s.h, Rn(s), s.b.rcv.heap);
    hide NoCopies, Inv, Clean, MeetsOverlap, RecoveryStep, Next;
    ResumeStep(s, now);
    NoCopiesLess(s, Next(s, Resume(now)).s);
  }

  lemma NoCopiesTimer(s: Sys, now: int)
    requires Inv(s) && NoCopies(s) && !Mangles(s, SndTimer(now))
    ensures Next(s, SndTimer(now)).Running? && NoCopies(Next(s, SndTimer(now)).s)
  {
    hide Inv, NoCopies, SenderStep, DataOk, SndTimerScan, Mangles, AddSent;
    TimerOut(s, now);
    SndTimerStep(s, now);
    NoCopiesSend(s, s.h, SndTimerScan(s.a, now));
  }

  lemma TimerOut(s: Sys, now: int)
    requires Inv(s) && !Mangles(s, SndTimer(now))
    ensures var o := SndTimerScan(s.a, now);
            && o.EndOk?
            && forall p :: p in o.out ==> p.payload == [] || DataOk(AddSent(s.h, o.out), Rn(s), p)
  {
    hide SInv, RInv, TimeOut, AddSent, Mangled, DataOk, AllDataIn, AcksOk, Ext, Start;
    TimeOutInv(s.h, s.a.snd, Rn(s), now);
  }

  /** Without duplication or a mangling timeout the only abort left is the exit of a fast retransmit. */
  lemma NoCopiesStep(s: Sys, l: Label)
    requires Inv(s) && NoCopies(s) && Enabled(s, l) && !l.DupData? && !Mangles(s, l)
    ensures Next(s, l).Aborted? <==> ExitsOnNul(s, l)
    ensures Next(s, l).Running? ==> NoCopies(Next(s, l).s)
  {
    hide Inv, NoCopies, Mangles, MeetsOverlap, RexmitExits;
    StepInv(s, l);
    match l
    case RecvData(p, k, now) =>
      if p.payload == [] {
        RecvEmptyStep(s, p, k, now);
        NoCopiesLess(s, Next(s, l).s);
      } else {
        NoCopiesRecv(s, p, k, now);
      }
    case Resume(now) => NoCopiesResume(s, now);
    case AckTimer(now) =>
      AckTimerStep(s, now);
      NoCopiesLess(s, Next(s, l).s);
    case AppRecv(n) =>
      AppRecvStep(s, n);
      NoCopiesLess(s, Next(s, l).s);
    case AppSend(bytes, now) => NoCopiesAppSend(s, bytes, now, Next(s, l).s);
    case RecvAck(p, now) =>
      if Next(s, l).Running? {
        NoCopiesAck(s, p, now, Next(s, l).s);
      }
    case SndTimer(now) => NoCopiesTimer(s, now);
    case _ => NoCopiesNet(s, l);
  }

  lemma NoCopiesNet(s: Sys, l: Label)
    requires NoCopies(s) && Enabled(s, l)
    ensures l.LoseData? || l.LoseAck? || l.DupAck? ==> Next(s, l).Running? && NoCopies(Next(s, l).s)
  {
    hide NoCopies, Next;
    if l.LoseData? || l.LoseAck? || l.DupAck? {
      NetNext(s, l);
      NoCopiesLess(s, Next(s, l).s);
    }
  }

  lemma NoCopiesAppSend(s: Sys, bytes: seq<Byte>, now: int, t: Sys)
    requires Inv(s) && NoCopies(s) && now > 0 && Next(s, AppSend(bytes, now)) == Running(t)
    ensures NoCopies(t)
  {
    hide Inv, NoCopies, SenderStep, DataOk, TouSend;
    AppSendStep(s, bytes, now);
    NoCopiesSend(s, Accept(s, bytes), TouSend(s.a, bytes, now));
  }

  lemma NoCopiesAck(s: Sys, p: Packet, now: int, t: Sys)
    requires Inv(s) && NoCopies(s) && Enabled(s, RecvAck(p, now)) && Next(s, RecvAck(p, now)) == Running(t)
    ensures NoCopies(t)
  {
    hide Inv, NoCopies, HandlePacket, RexmitExits, DataOk, SentOk, Next, AddSent, Ext, SInv;
    AckNext(s, p, now);
    var s0 := s.(acks := s.acks - multiset{p});
    NoCopiesLess(s, s0);
    RecvAckStep(s, p, now);
    NetworkStep(s, s.data, s0.acks);
    assert s0.(h := s.h) == s0;
    NoCopiesSend(s0, s.h, HandlePacket(s.a, p, 0, now));
  }

  lemma AckNext(s: Sys, p: Packet, now: int)
    ensures Next(s, RecvAck(p, now)) == StepA(s.(acks := s.acks - multiset{p}), HandlePacket(s.a, p, 0, now))
  {
  }

  predicate NoDuplication(ls: seq<Label>) {
    forall i :: 0 <= i < |ls| ==> !ls[i].DupData?
  }

  predicate EverMangles(s: Sys, ls: seq<Label>)
    decreases |ls|
  {
    if ls == [] || !Enabled(s, ls[0]) then false
    else Mangles(s, ls[0]) || (Next(s, ls[0]).Running? && EverMangles(Next(s, ls[0]).s, ls[1..]))
  }

  predicate EverExitsOnNul(s: Sys, ls: seq<Label>)
    decreases |ls|
  {
    if ls == [] || !Enabled(s, ls[0]) then false
    else ExitsOnNul(s, ls[0]) || (Next(s, ls[0]).Running? && EverExitsOnNul(Next(s, ls[0]).s, ls[1..]))
  }

  lemma {:induction false} ExecKeeps(s: Sys, ls: seq<Label>)
    requires Inv(s) && Exec(s, ls).Some?
    ensures Exec(s, ls).value.Running? ==> Inv(Exec(s, ls).value.s) && Forward(s, Exec(s, ls).value.s)
    decreases |ls|
  {
    hide Inv, HitsOverlap, ExitsOnNul, Next, Enabled;
    if ls != [] {
      StepInv(s, ls[0]);
      if Next(s, ls[0]).Running? {
        var t := Next(s, ls[0]).s;
        ExecKeeps(t, ls[1..]);
        assert Exec(s, ls) == Exec(t, ls[1..]);
      }
    }
  }

  lemma {:induction false} ExecNoCopies(s: Sys, ls: seq<Label>)
    requires Inv(s) && NoCopies(s) && NoDuplication(ls) && !EverMangles(s, ls) && Exec(s, ls).Some?
    ensures Exec(s, ls).value.Aborted? <==> EverExitsOnNul(s, ls)
    ensures Exec(s, ls).value.Running? ==> NoCopies(Exec(s, ls).value.s)
    decreases |ls|
  {
    hide Inv, NoCopies, HitsOverlap, ExitsOnNul, Mangles, Next, Enabled;
    if ls != [] {
      StepInv(s, ls[0]);
      NoCopiesStep(s, ls[0]);
      if Next(s, ls[0]).Running? {
        var t := Next(s, ls[0]).s;
        ExecNoCopies(t, ls[1..]);
        assert Exec(s, ls) == Exec(t, ls[1..]);
      }
    }
  }

  ghost predicate EverFails(s: Sys, ls: seq<Label>)
    decreases |ls|
  {
    if ls == [] || !Enabled(s, ls[0]) then false
    else
      || HitsOverlap(s, ls[0]) || ExitsOnNul(s, ls[0])
      || (Next(s, ls[0]).Running? && EverFails(Next(s, ls[0]).s, ls[1..]))
  }

  lemma {:induction false} ExecFails(s: Sys, ls: seq<Label>)
    requires Inv(s) && Exec(s, ls).Some?
    ensures Exec(s, ls).value.Aborted? <==> EverFails(s, ls)
    decreases |ls|
  {
    hide Inv, HitsOverlap, ExitsOnNul, Next, Enabled;
    if ls != [] {
      StepInv(s, ls[0]);
      if Next(s, ls[0]).Running? {
        ExecFails(Next(s, ls[0]).s, ls[1..]);
        assert Exec(s, ls) == Exec(Next(s, ls[0]).s, ls[1..]);
      }
    }
  }

  /** The process ends in only two ways, over every network and whatever bytes are sent: a history aborts if and
      only if some packet moves rcv_nxt past the start of a stored one, or some ack asks for a fast retransmit of
      a segment that was cut short at a NUL. */
  lemma AbortsExactlyWhen(s0: Sys, ls: seq<Label>, o: Outcome)
    requires Started(s0) && Exec(s0, ls) == Some(o)
    ensures o.Aborted? <==> EverFails(s0, ls)
  {
    StartedInv(s0);
    hide Exec, Inv, NoCopies, EverFails;
    ExecFails(s0, ls);
  }

  /** On a network that loses and reorders (and may duplicate acks) but does not duplicate data, a history of
      any bytes in which no timeout mangles a segment aborts if and only if it asks for a fast retransmit of a
      segment that was cut short at a NUL. */
  lemma AbortsIff(s0: Sys, ls: seq<Label>, o: Outcome)
    requires Started(s0) && NoDuplication(ls) && !EverMangles(s0, ls) && Exec(s0, ls) == Some(o)
    ensures o.Aborted? <==> EverExitsOnNul(s0, ls)
  {
    StartedInv(s0);
    hide Exec, Inv, NoCopies, EverMangles, EverExitsOnNul;
    ExecNoCopies(s0, ls);
  }

  /** The applications' bytes contain no NUL. */
  predicate TextOnly(ls: seq<Label>) {
    forall i :: 0 <= i < |ls| ==> ls[i].AppSend? ==> NulFree(ls[i].bytes)
  }

  lemma TextNeverCut(s: Sys)
    requires Inv(s) && NulFree(s.h.st)
    ensures !FrontCut(s.a.snd)
  {
    if s.a.snd.timers != [] {
      FrontStart(s.h, s.a.snd, Rn(s));
      hide SInv;
      assert NulFree(Bytes(s.h, s.a.snd.una, s.a.snd.timers[0].pId));
    }
  }

  lemma TextStep(s: Sys, l: Label)
    requires NulFree(s.h.st) && (l.AppSend? ==> NulFree(l.bytes)) && Next(s, l).Running?
    ensures NulFree(Next(s, l).s.h.st)
  {
    hide HandlePacket, TouSend, TouRecv, ResumeRun, SndTimerScan, AckTimerScan;
  }

  lemma {:induction false} TextIsNeverCut(s: Sys, ls: seq<Label>)
    requires Inv(s) && NulFree(s.h.st) && TextOnly(ls)
    ensures !EverMangles(s, ls) && !EverExitsOnNul(s, ls)
    decreases |ls|
  {
    hide Inv, HitsOverlap, Next, FrontCut, NulFree;
    if ls != [] && Enabled(s, ls[0]) {
      TextNeverCut(s);
      if Next(s, ls[0]).Running? {
        StepInv(s, ls[0]);
        TextStep(s, ls[0]);
        TextIsNeverCut(Next(s, ls[0]).s, ls[1..]);
      }
    }
  }

  /** On such a network no history of text ends in an abort. */
  lemma NeverAborts(s0: Sys, ls: seq<Label>, o: Outcome)
    requires Started(s0) && TextOnly(ls) && NoDuplication(ls) && Exec(s0, ls) == Some(o)
    ensures o.Running?
  {
    StartedInv(s0);
    hide Inv, Exec, EverMangles, EverExitsOnNul, NoCopies;
    TextIsNeverCut(s0, ls);
    ExecNoCopies(s0, ls);
  }

  lemma StartedInv(s: Sys)
    requires Started(s)
    ensures Inv(s) && NoCopies(s) && s.h.st == []
  {
    var isn, ack, awndA, awndB :| s == Init(isn, ack, awndA, awndB);
    hide Inv, NoCopies;
    InitInv(isn, ack, awndA, awndB);
    InitNoCopies(isn, ack, awndA, awndB);
  }

  lemma InitNoCopies(isn: nat, ack: nat, awndA: nat, awndB: nat)
    ensures NoCopies(Init(isn, ack, awndA, awndB))
  {
    var s := Init(isn, ack, awndA, awndB);
    hide DataOk;
    assert s.b.rcv.heap == [] && s.data == multiset{} && multiset(s.b.rcv.heap) == multiset{};
  }

  // ---------------------------------------------------------------- delivery

  /** rcv_nxt is ahead of what has been read and buffered by this many bytes. */
  function Deficit(s: Sys): int {
    s.b.rcv.rcvNxt - s.h.base - |s.got| - |s.b.rcv.cb|
  }

  /** The bytes touRecv returned followed by cb_recv are the accepted bytes up to rcv_nxt. */
  ghost predicate Delivered(s: Sys) {
    Intact(s.h, s.got, s.b.rcv)
  }

  /** run takes a segment that is next in line while cb_recv has no room for it. */
  predicate Overflows(s: Sys, l: Label) {
    l.RecvData? && l.p.payload != [] && l.p.seqNo == s.b.rcv.rcvNxt && !CbFits(s.b.rcv.cb, l.p.payload)
  }

  predicate EverOverflows(s: Sys, ls: seq<Label>)
    decreases |ls|
  {
    if ls == [] || !Enabled(s, ls[0]) || Next(s, ls[0]).Aborted? then false
    else Overflows(s, ls[0]) || EverOverflows(Next(s, ls[0]).s, ls[1..])
  }

  lemma BytesOfLonger(h: Hist, h': Hist, lo: nat, hi: nat)
    requires h.base == h'.base && h.st <= h'.st && h.base <= lo <= hi <= h.base + |h.st|
    ensures Bytes(h', lo, hi) == Bytes(h, lo, hi)
  {
    assert h'.st[..|h.st|] == h.st;
    var a, b := lo - h.base, hi - h.base;
    assert h'.st[a..b] == h.st[a..b];
  }

  lemma BytesLength(h: Hist, lo: nat, hi: nat)
    requires h.base <= lo <= hi <= h.base + |h.st|
    ensures |Bytes(h, lo, hi)| == hi - lo
  {
  }

  lemma RcvAtCut(h: Hist, rn: nat, r: Receiver)
    requires RInv(h, rn, r)
    ensures AtCut(h, r.rcvNxt)
  {
  }

  lemma GainSame(s: Sys, t: Sys)
    requires Inv(s) && s.h.base == t.h.base && s.h.st <= t.h.st
    requires t.b.rcv.rcvNxt == s.b.rcv.rcvNxt && t.got + t.b.rcv.cb == s.got + s.b.rcv.cb
    ensures Deficit(t) == Deficit(s) && (Delivered(s) <==> Delivered(t))
  {
    RcvAtCut(s.h, Rn(s), s.b.rcv);
    hide SInv, RInv, Bytes;
    BytesOfLonger(s.h, t.h, s.h.base, s.b.rcv.rcvNxt);
    assert |t.got + t.b.rcv.cb| == |s.got + s.b.rcv.cb|;
  }

  lemma GainBytes(s: Sys, t: Sys)
    requires Inv(s) && Inv(t) && s.h == t.h && s.got == t.got && s.b.rcv.rcvNxt <= t.b.rcv.rcvNxt
    requires t.b.rcv.cb == s.b.rcv.cb + Bytes(s.h, s.b.rcv.rcvNxt, t.b.rcv.rcvNxt)
    ensures Deficit(t) == Deficit(s) && (Delivered(s) ==> Delivered(t))
  {
    RcvAtCut(s.h, Rn(s), s.b.rcv);
    RcvAtCut(t.h, Rn(t), t.b.rcv);
    hide SInv, RInv, Bytes;
    BytesLength(s.h, s.b.rcv.rcvNxt, t.b.rcv.rcvNxt);
    BytesJoin(s.h, s.h.base, s.b.rcv.rcvNxt, t.b.rcv.rcvNxt);
    AssocBytes(s.got, s.b.rcv.cb, Bytes(s.h, s.b.rcv.rcvNxt, t.b.rcv.rcvNxt));
  }

  lemma DeliveredNoDeficit(s: Sys)
    requires Inv(s) && Delivered(s)
    ensures Deficit(s) == 0
  {
    RcvAtCut(s.h, Rn(s), s.b.rcv);
    BytesLength(s.h, s.h.base, s.b.rcv.rcvNxt);
    assert |s.got + s.b.rcv.cb| == |s.got| + |s.b.rcv.cb|;
  }

  lemma GainRecv(s: Sys, p: Packet, k: nat, now: int)
    requires Inv(s) && Enabled(s, RecvData(p, k, now)) && Next(s, RecvData(p, k, now)).Running? && p.payload != []
    ensures var t := Next(s, RecvData(p, k, now)).s;
            if Overflows(s, RecvData(p, k, now)) then Deficit(t) == Deficit(s) + |p.payload| && 0 < |p.payload|
            else Deficit(t) == Deficit(s) && (Delivered(s) ==> Delivered(t))
  {
    RecvDataStep(s, p, k, now);
    assert SentOk(s.h, Rn(s), p);
    RcvDataInv(s.h, Rn(s), s.b.rcv, p, k, now);
    var t := Next(s, RecvData(p, k, now)).s;
    RcvAtCut(t.h, Rn(t), t.b.rcv);
    hide SInv, RInv, Bytes, RcvData, Next, AcksOk, AllDataIn, SentOk, DataOk, MeetsOverlap;
    if Overflows(s, RecvData(p, k, now)) {
      BytesLength(s.h, p.End(), t.b.rcv.rcvNxt);
    } else {
      GainBytes(s, t);
    }
  }

  /** The bytes lost grow by exactly the segments that overflow, and never shrink. */
  lemma GainStep(s: Sys, l: Label)
    requires Inv(s) && Enabled(s, l) && Next(s, l).Running?
    ensures var t := Next(s, l).s;
            && Inv(t)
            && Deficit(t) == Deficit(s) + (if Overflows(s, l) then |l.p.payload| else 0)
            && (Overflows(s, l) ==> 0 < |l.p.payload|)
            && (!Overflows(s, l) && Delivered(s) ==> Delivered(t))
  {
    hide SInv, RInv, AllDataIn, AcksOk, MeetsOverlap, Bytes, Intact;
    StepInv(s, l);
    var t := Next(s, l).s;
    match l
    case RecvData(p, k, now) =>
      if p.payload == [] {
        RecvEmptyStep(s, p, k, now);
        GainSame(s, t);
      } else {
        GainRecv(s, p, k, now);
      }
    case Resume(now) =>
      ResumeStep(s, now);
      ResumeInv(s.h, Rn(s), s.b.rcv, now);
      GainBytes(s, t);
    case AppRecv(n) =>
      AppRecvStep(s, n);
      GainSame(s, t);
    case AckTimer(now) =>
      AckTimerStep(s, now);
      GainSame(s, t);
    case _ => GainSame(s, t);
  }

  lemma {:induction false} DeliveredFrom(s: Sys, ls: seq<Label>)
    requires Inv(s) && Exec(s, ls).Some? && Exec(s, ls).value.Running?
    requires Delivered(s) || Deficit(s) > 0
    ensures var t := Exec(s, ls).value.s;
            && (Delivered(t) <==> Delivered(s) && !EverOverflows(s, ls))
            && (Delivered(t) || Deficit(t) > 0)
    decreases |ls|
  {
    hide Inv, HitsOverlap, ExitsOnNul, Next, Enabled, Overflows, Delivered, Deficit;
    if Delivered(s) {
      DeliveredNoDeficit(s);
    }
    if ls != [] {
      var t := Next(s, ls[0]).s;
      GainStep(s, ls[0]);
      if Delivered(t) {
        DeliveredNoDeficit(t);
      }
      DeliveredFrom(t, ls[1..]);
      assert Exec(s, ls) == Exec(t, ls[1..]);
    }
  }

  /** End-to-end safety: over any network that loses, reorders and duplicates, in every history that does not
      abort, whatever bytes are sent, the bytes returned by touRecv followed by those buffered are the accepted
      bytes up to rcv_nxt if and only if no segment ever arrived in sequence without room for it. */
  lemma DeliveryIsExactIff(s0: Sys, ls: seq<Label>, s: Sys)
    requires Started(s0) && Exec(s0, ls) == Some(Running(s))
    ensures (s.got + s.b.rcv.cb == Bytes(s.h, s.h.base, s.b.rcv.rcvNxt)) <==> !EverOverflows(s0, ls)
    ensures s.h.base == s0.h.base
  {
    StartedInv(s0);
    StartedDelivered(s0);
    hide Inv, Exec, EverOverflows, Bytes, Started;
    DeliveredFrom(s0, ls);
    ExecKeeps(s0, ls);
  }

  lemma StartedDelivered(s: Sys)
    requires Started(s)
    ensures Delivered(s)
  {
    EmptyBytes(s.h, s.h.base);
  }

  /** What has been acknowledged has been received, and a sender with nothing left to send or
      retransmit has had every accepted byte received. */
  lemma AcknowledgedIsReceived(s: Sys)
    requires Inv(s) && Delivered(s)
    ensures Bytes(s.h, s.h.base, s.a.snd.una) <= s.got + s.b.rcv.cb <= s.h.st
    ensures s.a.snd.una == s.a.snd.nxt && s.a.snd.cb == [] ==> s.got + s.b.rcv.cb == s.h.st
  {
    RcvAtCut(s.h, Rn(s), s.b.rcv);
    SInvCuts(s.h, s.a.snd, Rn(s));
    var a, b, e := s.a.snd.una, s.b.rcv.rcvNxt, s.h.base + |s.h.st|;
    BytesCut(s.h, s.h.base, a, b);
    BytesCut(s.h, s.h.base, b, e);
    assert Bytes(s.h, s.h.base, e) == s.h.st;
    QueueLength(s);
  }

  lemma QueueLength(s: Sys)
    requires Inv(s)
    ensures |s.a.snd.cb| == s.h.base + |s.h.st| - s.a.snd.nxt
    ensures s.b.rcv.rcvNxt <= s.a.snd.nxt
  {
    hide Tiles, LogOk, KarnOk, HeapOk;
    BytesLength(s.h, s.a.snd.nxt, s.h.base + |s.h.st|);
  }
}
