/** What every history guarantees about sequence numbers and timers, and histories in which the
    code fails once a hypothesis of the theorems is dropped. */
module Histories {
  import opened TouTypes
  import opened History
  import opened SenderModel
  import opened AckProofs
  import opened ReceiverModel
  import opened ReceiverProofs
  import opened Reassembly
  import opened EndpointModel
  import opened Network
  import opened NetworkProofs
  import opened EndToEnd
  import AckLaws
  import Congestion
  import Deliverable
  import Progress
  import RunHistory
  import SenderProofs
  import Stalls

  /** In every history that does not abort, whatever the network loses, reorders or duplicates and whatever
      bytes are sent: the two sockets' sequence numbers are in order, no ack in flight runs ahead of the
      receiver, and every data packet in flight carries the stream's bytes at its own sequence number, or is
      what a NUL left of a retransmission. While the next run starts by reading, no stored packet is due. */
  lemma SequenceNumbersInOrder(s0: Sys, ls: seq<Label>, s: Sys)
    requires Started(s0) && Exec(s0, ls) == Some(Running(s))
    ensures s0.h.base <= s.a.snd.una <= s.b.rcv.rcvNxt <= s.a.snd.nxt <= s0.h.base + |s.h.st|
    ensures forall q :: q in s.acks ==> q.ackSeq <= s.b.rcv.rcvNxt && q.ackSeq in s.h.cuts
    ensures forall p :: p in s.data ==> p.End() <= s.a.snd.nxt
    ensures forall p :: p in s.data ==> p.payload == Bytes(s.h, p.seqNo, p.End()) || Mangled(s.h, Rn(s), p)
    ensures !s.b.rcv.recovering ==> forall i :: 0 <= i < |s.b.rcv.heap| ==> s.b.rcv.rcvNxt < s.b.rcv.heap[i].seqNo
  {
    StartedInv(s0);
    ExecKeeps(s0, ls);
    hide Exec, Started;
    InOrder(s);
  }

  lemma InOrder(s: Sys)
    requires Inv(s)
    ensures s.h.base <= s.a.snd.una <= s.b.rcv.rcvNxt <= s.a.snd.nxt <= s.h.base + |s.h.st|
    ensures forall q :: q in s.acks ==> q.ackSeq <= s.b.rcv.rcvNxt && q.ackSeq in s.h.cuts
    ensures forall p :: p in s.data ==> p.End() <= s.a.snd.nxt
    ensures forall p :: p in s.data ==> p.payload == Bytes(s.h, p.seqNo, p.End()) || Mangled(s.h, Rn(s), p)
    ensures !s.b.rcv.recovering ==> forall i :: 0 <= i < |s.b.rcv.heap| ==> s.b.rcv.rcvNxt < s.b.rcv.heap[i].seqNo
  {
    hide Tiles, LogOk, KarnOk, HeapOk, Bytes, Mangled;
    forall p | p in s.data
      ensures p.payload == Bytes(s.h, p.seqNo, p.End()) || Mangled(s.h, Rn(s), p)
      ensures p.End() <= s.a.snd.nxt
    {
      assert SentOk(s.h, Rn(s), p);
      EndInCuts(s.h, Rn(s), p);
    }
  }

  lemma EndInCuts(h: Hist, rn: nat, p: Packet)
    requires SentOk(h, rn, p)
    ensures p.End() in h.cuts
  {
    if Mangled(h, rn, p) {
      MangledOffCut(h, rn, p);
    }
  }

  /** Accepted bytes are acknowledged, in flight, or queued. The timer nodes stand for the bytes in flight, end to
      end; a node has a send time exactly if its segment was transmitted once, and only the front node can be
      without; and a node re-sends exactly its segment if that has no NUL. */
  ghost predicate TimersTell(h: Hist, s: Sender, rn: nat) {
    && h.base <= s.una <= s.nxt <= h.base + |h.st|
    && h.st == h.st[..s.una - h.base] + Bytes(h, s.una, s.nxt) + s.cb
    && s.nxt == (if s.timers == [] then s.una else s.timers[|s.timers| - 1].pId)
    && (forall i :: 0 <= i < |s.timers| ==> NodeTells(h, rn, s, From(s.timers, s.una, i), s.timers[i], i))
  }

  /** Node i, whose segment starts at lo. */
  ghost predicate NodeTells(h: Hist, rn: nat, s: Sender, lo: nat, n: Node, i: nat) {
    && s.una <= lo < n.pId <= s.nxt
    && h.log[Orig(h, rn, lo, n.pId)] >= 1
    && (n.xmit > 0 <==> Sends(h, rn, lo, n) == 1)
    && (i > 0 ==> n.xmit > 0)
    && (NodePacket(n, rn) == Orig(h, rn, lo, n.pId) <==> NulFree(Bytes(h, lo, n.pId)))
  }

  /** Karn's rule and conservation in every history, and the bounds of the congestion window. */
  lemma TimersInEveryHistory(s0: Sys, ls: seq<Label>, s: Sys)
    requires Started(s0) && Exec(s0, ls) == Some(Running(s))
    ensures TimersTell(s.h, s.a.snd, s.a.rcv.rcvNxt) && s.h.base == s0.h.base
    ensures SMSS <= s.a.snd.cc.cwnd <= MAX_CIRCULAR_BUF / 2
  {
    StartedInv(s0);
    hide Started, Inv, Exec, NoCopies, TimersTell;
    ExecKeeps(s0, ls);
    SenderSound(s);
    Timers(s.h, s.a.snd, Rn(s));
  }

  lemma Timers(h: Hist, s: Sender, rn: nat)
    requires SInv(h, s, rn)
    ensures TimersTell(h, s, rn)
    ensures SMSS <= s.cc.cwnd <= MAX_CIRCULAR_BUF / 2
  {
    hide NodeTells, LogOk, KarnOk, Tiles, NodeBytes, Bytes, NulFree;
    Conservation(h, s, rn);
    SenderProofs.LastEnd(h, s.timers, s.una, s.nxt);
    forall i | 0 <= i < |s.timers|
      ensures NodeTells(h, rn, s, From(s.timers, s.una, i), s.timers[i], i)
    {
      NodeOk(h, s, rn, i);
    }
  }

  lemma NodeOk(h: Hist, s: Sender, rn: nat, i: nat)
    requires SInv(h, s, rn) && i < |s.timers|
    ensures NodeTells(h, rn, s, From(s.timers, s.una, i), s.timers[i], i)
  {
    hide LogOk, Sends, Tiles, CutsOk;
    TilesAt(h, s.timers, s.una, s.nxt, i);
    ResendsIff(h, rn, From(s.timers, s.una, i), s.timers[i]);
    assert KarnAt(h, rn, From(s.timers, s.una, i), s.timers[i], i);
  }

  lemma ResendsIff(h: Hist, rn: nat, lo: nat, n: Node)
    requires IsSeg(h, lo, n.pId, Bytes(h, lo, n.pId)) && n.payload == CStr(Bytes(h, lo, n.pId))
    ensures NodePacket(n, rn) == Orig(h, rn, lo, n.pId) <==> NulFree(Bytes(h, lo, n.pId))
  {
    StartIff(h, lo, n);
  }

  // ---------------------------------------------------------------- the first flight

  /** On a fresh connection the first large write transmits two full segments at once, whatever else is queued. */
  lemma FirstFlight(s0: Sys, bytes: seq<Byte>, now: int)
    requires Started(s0) && s0.a.snd.cc.awnd >= 2912 && 2912 <= |bytes| < MAX_CIRCULAR_BUF && now > 0
    ensures var r := Next(s0, AppSend(bytes, now));
            r.Running? && r.s.a.snd.nxt == s0.a.snd.nxt + 2912
  {
    FreshSender(s0);
    hide Next, SenderModel.Send, CbInsert, AfterSend, Started;
    Queued(bytes);
    SendNext(s0, bytes, now);
    FirstTwo(s0.a.snd.(cb := bytes), Rn(s0), now);
  }

  lemma FreshSender(s: Sys)
    requires Started(s)
    ensures var a := s.a.snd;
            a.cb == [] && a.timers == [] && a.rto == 3000 && a.una == a.nxt && a.cc == Congestion.InitCong(a.cc.awnd)
  {
  }

  lemma FirstTwo(s: Sender, rn: nat, now: int)
    requires s.cc == Congestion.InitCong(s.cc.awnd) && s.una == s.nxt && s.cc.awnd >= 2912 && |s.cb| >= 2912
    ensures SenderModel.Send(s, rn, now).0.nxt == s.nxt + 2912
  {
    hide SenderModel.Send, SenderProofs.Payloads, SenderProofs.Maximal;
    SenderProofs.SendUsesWindow(s, rn, now);
    SenderProofs.SendSafe(s, rn, now);
    var (s', ps) := SenderModel.Send(s, rn, now);
    assert |SenderProofs.Payloads(ps) + s'.cb| == |s.cb|;
    TwoFull(ps, s.nxt, |s.cb|);
  }

  lemma TwoFull(ps: seq<Packet>, nxt: nat, queue: nat)
    requires SenderProofs.Maximal(ps, nxt, nxt + 2912, queue) && queue >= 2912
    requires 1512 < |SenderProofs.Payloads(ps)| <= 2912
    ensures |SenderProofs.Payloads(ps)| == 2912
  {
    var a, b := ps[1..], ps[1..][1..];
    assert SenderProofs.Payloads(ps) == ps[0].payload + SenderProofs.Payloads(a);
    assert |ps[0].payload| == 1456 && a != [];
    assert SenderProofs.Payloads(a) == a[0].payload + SenderProofs.Payloads(b);
    assert |a[0].payload| == 1456;
  }

  /** On a fresh connection the first timeout comes three seconds after the first write. */
  lemma FirstTimeoutAfterThreeSeconds(s0: Sys, bytes: seq<Byte>, t1: int, t2: int)
    requires Started(s0) && s0.a.snd.cc.awnd >= 1400 && 0 < |bytes| < MAX_CIRCULAR_BUF && t1 > 0
    ensures var r := Next(s0, AppSend(bytes, t1));
            r.Running? && var r2 := Next(r.s, SndTimer(t2));
                          r2.Running? && (r2.s.data != r.s.data <==> t1 + 3000 < t2)
  {
    StartedInv(s0);
    FreshSender(s0);
    hide Inv, NoCopies, Started, Next, SenderModel.Send, CbInsert, TimeOut, AddSent;
    Queued(bytes);
    SenderProofs.SendsWhenIdleIff(s0.a.snd.(cb := bytes), Rn(s0), t1);
    FirstWriteTimer(s0, s0.a.snd.(cb := bytes), bytes, t1, t2);
  }

  lemma FirstWriteTimer(s0: Sys, s: Sender, bytes: seq<Byte>, t1: int, t2: int)
    requires Inv(s0) && s == s0.a.snd.(cb := CbInsert(s0.a.snd.cb, bytes)) && s.timers == [] && s.rto == 3000 && t1 > 0
    requires SenderModel.Send(s, Rn(s0), t1).1 != []
    ensures var r := Next(s0, AppSend(bytes, t1));
            r.Running? && var r2 := Next(r.s, SndTimer(t2));
                          r2.Running? && (r2.s.data != r.s.data <==> t1 + 3000 < t2)
  {
    hide Inv, SInv, SenderModel.Send, CbInsert, TimeOut, AddSent, Next;
    SenderSound(s0);
    QueueInv(s0.h, s0.a.snd, Rn(s0), bytes);
    AckLaws.FirstTimeoutIff(Accept(s0, bytes), s, Rn(s0), t1, t2);
    SendNext(s0, bytes, t1);
    var t := Next(s0, AppSend(bytes, t1)).s;
    Deliverable.TimerNext(t, t2);
    var o := TimeOut(t.a.snd, Rn(t), t2);
    MorePackets(t.data, o.pkts);
  }

  lemma MorePackets(data: multiset<Packet>, ps: seq<Packet>)
    ensures data + multiset(ps) != data <==> ps != []
  {
    if ps != [] {
      assert ps[0] in multiset(ps);
      assert (data + multiset(ps))[ps[0]] > data[ps[0]];
    }
  }

  // ---------------------------------------------------------------- duplicated data

  /** Where duplication breaks the receiver: whenever two consecutive segments are in flight, the second
      delivered twice before the first makes the assertion in do_proc_pkt_rec fail. */
  lemma DuplicateOutOfOrderAborts(s: Sys, p1: Packet, p2: Packet)
    requires Inv(s) && p1 in s.data && p2 in s.data && p1 != p2 && p1.payload != [] && p2.payload != []
    requires p1.seqNo == s.b.rcv.rcvNxt && p2.seqNo == p1.End() && !s.b.rcv.recovering && s.b.rcv.heap == []
    requires |s.b.rcv.cb| + |p1.payload| + |p2.payload| < MAX_CIRCULAR_BUF
    ensures Exec(s, [DupData(p2), RecvData(p2, 0, 1), RecvData(p2, 0, 1), RecvData(p1, 0, 1)]) == Some(Aborted)
  {
    hide Inv, Next, Exec, Packet.End;
    StoredTwice(s, p1, p2);
    var s2 := Next(Next(s, DupData(p2)).s, RecvData(p2, 0, 1)).s;
    PairAborts(Next(s2, RecvData(p2, 0, 1)).s, p1, p2);
    FourSteps(s, DupData(p2), RecvData(p2, 0, 1), RecvData(p2, 0, 1), RecvData(p1, 0, 1));
  }

  /** The first three steps leave p2 in the heap twice and p1 in flight. */
  lemma StoredTwice(s: Sys, p1: Packet, p2: Packet)
    requires Inv(s) && p1 in s.data && p2 in s.data && p1 != p2 && p1.payload != [] && p2.payload != []
    requires p1.seqNo == s.b.rcv.rcvNxt && p2.seqNo == p1.End() && !s.b.rcv.recovering && s.b.rcv.heap == []
    ensures Enabled(s, DupData(p2)) && Next(s, DupData(p2)).Running?
    ensures var s1 := Next(s, DupData(p2)).s;
            && Enabled(s1, RecvData(p2, 0, 1)) && Next(s1, RecvData(p2, 0, 1)).Running?
            && var s2 := Next(s1, RecvData(p2, 0, 1)).s;
               && Enabled(s2, RecvData(p2, 0, 1)) && Next(s2, RecvData(p2, 0, 1)).Running?
               && var s3 := Next(s2, RecvData(p2, 0, 1)).s;
                  && Inv(s3) && p1 in s3.data && s3.b.rcv.rcvNxt == s.b.rcv.rcvNxt && !s3.b.rcv.recovering
                  && s3.b.rcv.heap == [p2, p2] && s3.b.rcv.cb == s.b.rcv.cb
  {
    Ahead(s, p1, p2);
    hide Inv, Next, Packet.End;
    DupStep(s, p2);
    var s1 := Next(s, DupData(p2)).s;
    StoreTwice(s1, p2, []);
    StoreTwice(Next(s1, RecvData(p2, 0, 1)).s, p2, [p2]);
  }

  lemma Ahead(s: Sys, p1: Packet, p2: Packet)
    requires p1.payload != [] && p1.seqNo == s.b.rcv.rcvNxt && p2.seqNo == p1.End()
    ensures s.b.rcv.rcvNxt < p2.seqNo
  {
  }

  lemma DupStep(s: Sys, p: Packet)
    requires Inv(s) && p in s.data
    ensures Enabled(s, DupData(p)) && Next(s, DupData(p)) == Running(s.(data := s.data + multiset{p}))
    ensures Inv(s.(data := s.data + multiset{p}))
  {
    hide Inv;
    NetworkStep(s, s.data + multiset{p}, s.acks);
  }

  /** The missing segment arrives while its successor is stored twice. */
  lemma PairAborts(s: Sys, p1: Packet, p2: Packet)
    requires Inv(s) && p1 in s.data && p1.seqNo == s.b.rcv.rcvNxt && p2.seqNo == p1.End()
    requires p1.payload != [] && p2.payload != []
    requires !s.b.rcv.recovering && s.b.rcv.heap == [p2, p2]
    requires |s.b.rcv.cb| + |p1.payload| + |p2.payload| < MAX_CIRCULAR_BUF
    ensures Enabled(s, RecvData(p1, 0, 1)) && Next(s, RecvData(p1, 0, 1)).Aborted?
  {
    MeetsPair(p2, p1.End(), CbInsert(s.b.rcv.cb, p1.payload));
    hide Inv, MeetsOverlap, Next;
    RecvDataStep(s, p1, 0, 1);
  }

  lemma MeetsPair(p: Packet, r: nat, cb: seq<Byte>)
    requires p.payload != [] && p.seqNo == r && |cb| + |p.payload| < MAX_CIRCULAR_BUF
    ensures MeetsOverlap([p, p], r, cb)
  {
    var heap := [p, p];
    assert RightOf(heap, r, 1) == p.End();
    assert Reaches(heap, r, cb, 1);
    assert heap[1].seqNo < RightOf(heap, r, 1);
  }

  /** An out-of-order packet joins a heap of copies of itself. */
  lemma StoreTwice(s: Sys, p: Packet, heap: seq<Packet>)
    requires Inv(s) && p in s.data && p.payload != [] && s.b.rcv.rcvNxt < p.seqNo && !s.b.rcv.recovering
    requires s.b.rcv.heap == heap && (heap == [] || heap == [p])
    ensures var r := Next(s, RecvData(p, 0, 1));
            && r.Running? && Inv(r.s) && r.s.b.rcv.heap == [p] + heap && !r.s.b.rcv.recovering
            && r.s.b.rcv.cb == s.b.rcv.cb && r.s.b.rcv.rcvNxt == s.b.rcv.rcvNxt
            && r.s.data == s.data - multiset{p} && r.s.a == s.a && r.s.h == s.h
  {
    assert HeapSlot(heap, p, 0);
    assert PushPkt(heap, p, 0) == [p] + heap;
    hide Inv, Next, MeetsOverlap, PushPkt, RcvData;
    RecvDataStep(s, p, 0, 1);
    MoreUnfold(s.b.rcv, p, 0, 1);
  }

  lemma FourSteps(s: Sys, l1: Label, l2: Label, l3: Label, l4: Label)
    requires Enabled(s, l1) && Next(s, l1).Running?
    requires var s1 := Next(s, l1).s;
             Enabled(s1, l2) && Next(s1, l2).Running?
             && var s2 := Next(s1, l2).s;
                Enabled(s2, l3) && Next(s2, l3).Running?
                && var s3 := Next(s2, l3).s;
                   Enabled(s3, l4) && Next(s3, l4).Aborted?
    ensures Exec(s, [l1, l2, l3, l4]) == Some(Aborted)
  {
    hide Next, Enabled;
    var s1 := Next(s, l1).s;
    var s2 := Next(s1, l2).s;
    var s3 := Next(s2, l3).s;
    assert [l4][0] == l4;
    assert Exec(s3, [l4]) == Some(Aborted);
    assert [l3, l4][1..] == [l4];
    assert Exec(s2, [l3, l4]) == Exec(s3, [l4]);
    assert [l2, l3, l4][1..] == [l3, l4];
    assert Exec(s1, [l2, l3, l4]) == Exec(s2, [l3, l4]);
    assert [l1, l2, l3, l4][1..] == [l2, l3, l4];
  }

  /** A small write in slow start on a fresh connection: one segment, one timer node. */
  lemma WriteSent(s: Sys, bytes: seq<Byte>, now: int)
    requires s.a.snd.cb == [] && s.a.snd.cc == Congestion.InitCong(65536) && s.a.snd.nxt <= s.a.snd.una + 1
    requires 0 < |bytes| <= MIN_SEND_SIZE
    ensures var r := Next(s, AppSend(bytes, now));
            && r.Running?
            && r.s.data == s.data + multiset{WirePacket(s.a.snd.nxt, Rn(s), bytes)}
            && r.s.b == s.b && r.s.a.rcv == s.a.rcv && r.s.a.snd.cb == [] && r.s.a.snd.cc == s.a.snd.cc
            && r.s.a.snd.una == s.a.snd.una && r.s.a.snd.nxt == s.a.snd.nxt + |bytes|
            && r.s.h.base == s.h.base && r.s.h.st == s.h.st + bytes
            && r.s.h.log == s.h.log + multiset{WirePacket(s.a.snd.nxt, Rn(s), bytes)}
            && r.s.a.snd.timers ==
               HeapPush(s.a.snd.timers, NodeRaw(s.a.snd.nxt + |bytes|, bytes, now + s.a.snd.rto, now))
  {
    hide Next, SenderModel.Send, HeapPush, CbInsert, Congestion.InitCong, AfterSend, WirePacket;
    Queued(bytes);
    OneSegment(s.a.snd.(cb := bytes), Rn(s), now);
    SendNext(s, bytes, now);
    var (s1, ps) := SenderModel.Send(s.a.snd.(cb := bytes), Rn(s), now);
    AfterOne(s, bytes, s1, WirePacket(s.a.snd.nxt, Rn(s), bytes));
  }

  lemma Queued(bytes: seq<Byte>)
    requires 0 < |bytes| < MAX_CIRCULAR_BUF
    ensures CbInsert([], bytes) == bytes
  {
    assert [] + bytes == bytes;
  }

  lemma SendNext(s: Sys, bytes: seq<Byte>, now: int)
    ensures var (s1, ps) := SenderModel.Send(s.a.snd.(cb := CbInsert(s.a.snd.cb, bytes)), Rn(s), now);
            Next(s, AppSend(bytes, now)) == Running(AfterSend(s, bytes, s1, ps))
  {
    hide SenderModel.Send, CbInsert, AddSent, Accept;
  }

  function AfterSend(s: Sys, bytes: seq<Byte>, s1: Sender, ps: seq<Packet>): Sys {
    s.(a := s.a.(snd := s1), data := s.data + multiset(ps), h := AddSent(Accept(s, bytes), ps))
  }

  lemma AfterOne(s: Sys, bytes: seq<Byte>, s1: Sender, p: Packet)
    requires s.a.snd.cb == [] && 0 < |bytes| <= MIN_SEND_SIZE
    ensures var t := AfterSend(s, bytes, s1, [p]);
            && t.data == s.data + multiset{p} && t.b == s.b && t.a == s.a.(snd := s1)
            && t.h.base == s.h.base && t.h.st == s.h.st + bytes && t.h.log == s.h.log + multiset{p}
  {
    assert Accept(s, bytes) == s.h.(st := s.h.st + bytes);
    SentAlone(Accept(s, bytes), p);
    hide AddSent, Accept;
  }

  lemma SentAlone(h: Hist, p: Packet)
    ensures AddSent(h, [p]).log == h.log + multiset{p} && AddSent(h, [p]).st == h.st && AddSent(h, [p]).base == h.base
    ensures multiset([p]) == multiset{p}
  {
  }

  /** A queue of at most MIN_SEND_SIZE bytes goes out as one segment. */
  lemma OneSegment(s: Sender, rn: nat, now: int)
    requires s.cc == Congestion.InitCong(65536) && s.nxt <= s.una + 1 && 0 < |s.cb| <= MIN_SEND_SIZE
    ensures SenderModel.Send(s, rn, now) ==
            (s.(nxt := s.nxt + |s.cb|, cb := [],
                timers := HeapPush(s.timers, NodeRaw(s.nxt + |s.cb|, s.cb, now + s.rto, now))),
             [WirePacket(s.nxt, rn, s.cb)])
  {
    var sz := SendSize(s);
    assert sz >= MIN_SEND_SIZE;
    hide HeapPush, SendSize;
    var (s1, p) := SendOne(s, rn, sz, now);
    assert s.cb[..|s.cb|] == s.cb;
    assert SendLoop(s1, rn, CalNumCaXmit(sz), now) == (s1, []);
    assert [p] + [] == [p];
  }

  /** Two one-byte writes on a connection with nothing in flight. */
  lemma TwoWrites(s: Sys, x: Byte, y: Byte)
    requires Inv(s) && s.a.snd.cb == [] && s.a.snd.cc == Congestion.InitCong(65536) && s.a.snd.nxt == s.a.snd.una
    ensures Next(s, AppSend([x], 1)).Running? && Next(Next(s, AppSend([x], 1)).s, AppSend([y], 1)).Running?
    ensures var t := Next(Next(s, AppSend([x], 1)).s, AppSend([y], 1)).s;
            && Inv(t) && t.b == s.b
            && WirePacket(s.a.snd.nxt, Rn(s), [x]) in t.data && WirePacket(s.a.snd.nxt + 1, Rn(s), [y]) in t.data
  {
    hide Inv, Next, HitsOverlap, ExitsOnNul, Congestion.InitCong;
    WriteSent(s, [x], 1);
    StepInv(s, AppSend([x], 1));
    var s1 := Next(s, AppSend([x], 1)).s;
    WriteSent(s1, [y], 1);
    StepInv(s1, AppSend([y], 1));
  }

  /** A concrete history from the handshake that ends in the failed assertion: two one-byte writes, the
      second segment duplicated and delivered twice before the first. */
  lemma DuplicationCanAbort()
    ensures var p1, p2 := WirePacket(1, 7, [65]), WirePacket(2, 7, [66]);
            Exec(Init(1, 7, 65536, 65536),
                 [AppSend([65], 1), AppSend([66], 1)]
                 + [DupData(p2), RecvData(p2, 0, 1), RecvData(p2, 0, 1), RecvData(p1, 0, 1)]) == Some(Aborted)
  {
    var p1, p2 := WirePacket(1, 7, [65]), WirePacket(2, 7, [66]);
    var s0 := Init(1, 7, 65536, 65536);
    var l0, l1 := AppSend([65], 1), AppSend([66], 1);
    InitInv(1, 7, 65536, 65536);
    hide Inv, Next, Exec;
    TwoWrites(s0, 65, 66);
    var s2 := Next(Next(s0, l0).s, l1).s;
    DuplicateOutOfOrderAborts(s2, p1, p2);
    TwoThen(s0, l0, l1, [DupData(p2), RecvData(p2, 0, 1), RecvData(p2, 0, 1), RecvData(p1, 0, 1)]);
  }

  lemma TwoThen(s: Sys, l0: Label, l1: Label, ls: seq<Label>)
    requires Enabled(s, l0) && Next(s, l0).Running?
    requires Enabled(Next(s, l0).s, l1) && Next(Next(s, l0).s, l1).Running?
    ensures Exec(s, [l0, l1] + ls) == Exec(Next(Next(s, l0).s, l1).s, ls)
  {
    hide Next, Enabled;
    var s1 := Next(s, l0).s;
    assert ([l1] + ls)[1..] == ls;
    assert Exec(s1, [l1] + ls) == Exec(Next(s1, l1).s, ls);
    assert ([l0, l1] + ls)[1..] == [l1] + ls;
  }

  // ---------------------------------------------------------------- NUL bytes

  /** Where binary data breaks the receiver: whenever a timeout re-sends a segment that was cut short while the
      segment itself is still on its way, the retransmission arriving first makes the assertion in
      do_proc_pkt_rec fail, with nothing lost and nothing duplicated. */
  lemma MangledTimeoutAborts(s: Sys, t0: int, t1: int, t2: int)
    requires Inv(s) && Mangles(s, SndTimer(t0)) && t0 > 0 && t1 > 0 && t2 > 0
    requires s.b.rcv.rcvNxt == s.a.snd.una && !s.b.rcv.recovering
    requires Orig(s.h, Rn(s), s.a.snd.una, s.a.snd.timers[0].pId) in s.data
    ensures var q, o := NodePacket(s.a.snd.timers[0], Rn(s)), Orig(s.h, Rn(s), s.a.snd.una, s.a.snd.timers[0].pId);
            Exec(s, [SndTimer(t0)] + ([RecvData(q, 0, t1)] + [RecvData(o, 0, t2)])) == Some(Aborted)
  {
    var q, o := NodePacket(s.a.snd.timers[0], Rn(s)), Orig(s.h, Rn(s), s.a.snd.una, s.a.snd.timers[0].pId);
    CutPacket(s);
    hide Inv, Next, NodePacket, Orig, FrontCut, Exec;
    MangledSent(s, t0, q, o);
    MangledFirst(Next(s, SndTimer(t0)).s, q, o, t1, t2);
    RunHistory.ExecOne(s, SndTimer(t0), [RecvData(q, 0, t1)] + [RecvData(o, 0, t2)]);
  }

  lemma MangledSent(s: Sys, now: int, q: Packet, o: Packet)
    requires Inv(s) && s.a.snd.timers != [] && s.a.snd.timers[0].ms < now && now > 0
    requires q == NodePacket(s.a.snd.timers[0], Rn(s)) && o in s.data
    ensures Enabled(s, SndTimer(now)) && Next(s, SndTimer(now)).Running?
    ensures var t := Next(s, SndTimer(now)).s;
            Inv(t) && t.b == s.b && q in t.data && o in t.data
  {
    hide Inv, Next, NodePacket;
    Progress.TimedOutState(s, now);
    KeepsInFlight(s, now);
    StepInv(s, SndTimer(now));
  }

  lemma KeepsInFlight(s: Sys, now: int)
    requires Next(s, SndTimer(now)).Running?
    ensures forall p :: p in s.data ==> p in Next(s, SndTimer(now)).s.data
  {
    hide SndTimerScan, AddSent;
  }

  /** What is left of the segment arrives before the segment. */
  lemma MangledFirst(s: Sys, q: Packet, o: Packet, t1: int, t2: int)
    requires Inv(s) && q in s.data && o in s.data && q.payload != [] && o.payload != [] && t1 > 0 && t2 > 0
    requires o.seqNo == s.b.rcv.rcvNxt < q.seqNo < o.End() && !s.b.rcv.recovering
    ensures Exec(s, [RecvData(q, 0, t1)] + [RecvData(o, 0, t2)]) == Some(Aborted)
  {
    hide Inv, Next;
    MangledStored(s, q, o, t1);
    var t := Next(s, RecvData(q, 0, t1)).s;
    OriginalAborts(t, q, o, t2);
    RunHistory.ExecOne(s, RecvData(q, 0, t1), [RecvData(o, 0, t2)]);
    assert [RecvData(o, 0, t2)] + [] == [RecvData(o, 0, t2)];
    RunHistory.ExecOne(t, RecvData(o, 0, t2), []);
  }

  lemma CutPacket(s: Sys)
    requires Inv(s) && FrontCut(s.a.snd)
    ensures var q, o := NodePacket(s.a.snd.timers[0], Rn(s)), Orig(s.h, Rn(s), s.a.snd.una, s.a.snd.timers[0].pId);
            && o.seqNo == s.a.snd.una < q.seqNo && q.End() == o.End() && o.payload != []
            && q.payload == s.a.snd.timers[0].payload
  {
    FrontStart(s.h, s.a.snd, Rn(s));
    TilesAt(s.h, s.a.snd.timers, s.a.snd.una, s.a.snd.nxt, 0);
  }

  /** What is left of the segment waits in the heap, at a sequence number inside the segment. */
  lemma MangledStored(s: Sys, q: Packet, o: Packet, now: int)
    requires Inv(s) && q in s.data && o in s.data && q != o && q.payload != [] && now > 0
    requires s.b.rcv.rcvNxt < q.seqNo && !s.b.rcv.recovering
    ensures Enabled(s, RecvData(q, 0, now))
    ensures var r := Next(s, RecvData(q, 0, now));
            && r.Running? && Inv(r.s) && r.s.b.rcv.rcvNxt == s.b.rcv.rcvNxt && !r.s.b.rcv.recovering
            && o in r.s.data && q in r.s.b.rcv.heap
  {
    hide Inv, Next, MeetsOverlap, RcvData;
    RecvDataStep(s, q, 0, now);
    MoreUnfold(s.b.rcv, q, 0, now);
    PushKeeps(s.b.rcv.heap, q, 0, q);
  }

  /** The segment itself moves rcv_nxt past the start of the stored packet. */
  lemma OriginalAborts(s: Sys, q: Packet, o: Packet, now: int)
    requires Inv(s) && o in s.data && o.payload != [] && o.seqNo == s.b.rcv.rcvNxt && !s.b.rcv.recovering && now > 0
    requires q in s.b.rcv.heap && q.seqNo < o.End()
    ensures Enabled(s, RecvData(o, 0, now)) && Next(s, RecvData(o, 0, now)).Aborted?
  {
    var heap := s.b.rcv.heap;
    var i :| 0 <= i < |heap| && heap[i] == q;
    assert Sorted(heap);
    assert heap[0].seqNo <= heap[i].seqNo;
    assert Reaches(heap, o.End(), CbInsert(s.b.rcv.cb, o.payload), 0);
    assert heap[0].seqNo < RightOf(heap, o.End(), 0);
    hide Inv, Next;
    RecvDataStep(s, o, 0, now);
  }

  /** A concrete history from the handshake: one write of two bytes, the second of them NUL, and a timeout that
      comes before the ack. Nothing is lost, nothing duplicated, and no segment is stored twice. */
  lemma NulCanAbort()
    ensures Exec(Init(1, 7, 65536, 65536),
                 [AppSend([65, 0], 1)]
                 + ([SndTimer(3002)]
                    + ([RecvData(WirePacket(2, 7, [65]), 0, 3003)] + [RecvData(WirePacket(1, 7, [65, 0]), 0, 3004)])))
            == Some(Aborted)
  {
    var s0, l := Init(1, 7, 65536, 65536), AppSend([65, 0], 1);
    var tl := [SndTimer(3002)]
              + ([RecvData(WirePacket(2, 7, [65]), 0, 3003)] + [RecvData(WirePacket(1, 7, [65, 0]), 0, 3004)]);
    NulWritten();
    hide Inv, Next, Exec, Mangles, Init;
    MangledTimeoutAborts(Next(s0, l).s, 3002, 3003, 3004);
    RunHistory.ExecOne(s0, l, tl);
  }

  lemma NulWritten()
    ensures var s0, l := Init(1, 7, 65536, 65536), AppSend([65, 0], 1);
            && Enabled(s0, l) && Next(s0, l).Running?
            && var s := Next(s0, l).s;
               && Inv(s) && Mangles(s, SndTimer(3002)) && Rn(s) == 7
               && s.b.rcv.rcvNxt == s.a.snd.una == 1 && !s.b.rcv.recovering
               && NodePacket(s.a.snd.timers[0], 7) == WirePacket(2, 7, [65])
               && Orig(s.h, 7, 1, s.a.snd.timers[0].pId) == WirePacket(1, 7, [65, 0])
               && WirePacket(1, 7, [65, 0]) in s.data
  {
    var s0, l := Init(1, 7, 65536, 65536), AppSend([65, 0], 1);
    hide Inv, Next;
    WriteSent(s0, [65, 0], 1);
    InitInv(1, 7, 65536, 65536);
    AfterNul(s0, Next(s0, l).s);
    StepSafe(s0, l);
  }

  lemma StepSafe(s: Sys, l: Label)
    requires Inv(s) && l.AppSend? && Enabled(s, l)
    ensures Next(s, l).Running? && Inv(Next(s, l).s)
  {
    hide Inv, Next;
    StepInv(s, l);
  }

  lemma AfterNul(s0: Sys, s: Sys)
    requires s0 == Init(1, 7, 65536, 65536)
    requires s.data == s0.data + multiset{WirePacket(1, 7, [65, 0])} && s.b == s0.b && s.a.rcv == s0.a.rcv
    requires s.a.snd.una == 1 && s.h.base == 1 && s.h.st == s0.h.st + [65, 0]
    requires s.a.snd.timers == HeapPush(s0.a.snd.timers, NodeRaw(3, [65, 0], 3001, 1))
    ensures && Mangles(s, SndTimer(3002)) && Rn(s) == 7
            && s.b.rcv.rcvNxt == s.a.snd.una == 1 && !s.b.rcv.recovering
            && NodePacket(s.a.snd.timers[0], 7) == WirePacket(2, 7, [65])
            && Orig(s.h, 7, 1, s.a.snd.timers[0].pId) == WirePacket(1, 7, [65, 0])
            && WirePacket(1, 7, [65, 0]) in s.data
  {
    CutCopy();
    hide CStr;
    assert s.a.snd.timers == [NodeRaw(3, [65], 3001, 1)];
    assert s.h.st == [65, 0];
  }

  lemma CutCopy()
    ensures CopyNode(NodeRaw(3, [65, 0], 3001, 1)) == NodeRaw(3, [65], 3001, 1)
  {
    var pl: seq<Byte> := [65, 0];
    assert pl[1..] == [0] && CStr([0]) == [];
    assert CStr(pl) == [65] + CStr(pl[1..]);
  }

  lemma FirstSegmentGone(s: Sys, t: Sys, p: Packet)
    requires p == WirePacket(1, 7, [65, 0]) && s.data == multiset{} + multiset{p} && p in s.h.log
    requires s.b == Init(1, 7, 65536, 65536).b && t == s.(data := s.data - multiset{p})
    ensures Stalls.Gone(t, p)
  {
    assert p.payload[1] == 0;
  }

  lemma NulInFlight() returns (s: Sys)
    ensures var s0, l, p := Init(1, 7, 65536, 65536), AppSend([65, 0], 1), WirePacket(1, 7, [65, 0]);
            && Enabled(s0, l) && Next(s0, l) == Running(s)
            && s.data == multiset{} + multiset{p} && p in s.h.log && s.b == s0.b
  {
    var s0 := Init(1, 7, 65536, 65536);
    hide Next;
    WriteSent(s0, [65, 0], 1);
    s := Next(s0, AppSend([65, 0], 1)).s;
  }

  lemma FirstSegmentLost() returns (t: Sys)
    ensures var p := WirePacket(1, 7, [65, 0]);
            && Exec(Init(1, 7, 65536, 65536), [AppSend([65, 0], 1)] + [LoseData(p)]) == Some(Running(t))
            && Stalls.Gone(t, p)
  {
    var s0, l, p := Init(1, 7, 65536, 65536), AppSend([65, 0], 1), WirePacket(1, 7, [65, 0]);
    hide Next, Init, Exec, Stalls.Gone;
    var s := NulInFlight();
    assert Enabled(s, LoseData(p));
    NetNext(s, LoseData(p));
    t := s.(data := s.data - multiset{p});
    FirstSegmentGone(s, t, p);
    hide Enabled;
    TwoSteps(s0, l, s, LoseData(p), t);
  }

  lemma TwoSteps(s0: Sys, l0: Label, s1: Sys, l1: Label, s2: Sys)
    requires Enabled(s0, l0) && Next(s0, l0) == Running(s1) && Enabled(s1, l1) && Next(s1, l1) == Running(s2)
    ensures Exec(s0, [l0] + [l1]) == Some(Running(s2))
  {
    hide Enabled, Next;
    TwoThen(s0, l0, l1, []);
    assert [l0, l1] + [] == [l0] + [l1];
  }

  /** Where binary data is lost for good: one write of two bytes, the second of them NUL, and the network loses the
      segment. Its timer node holds one byte, and no continuation delivers the other. */
  lemma LostNulStalls(c: int)
    requires c > 0
    ensures var p := WirePacket(1, 7, [65, 0]);
            var o := Exec(Init(1, 7, 65536, 65536), [AppSend([65, 0], 1)] + [LoseData(p)]);
            && o.Some? && o.value.Running?
            && Stalls.Gone(o.value.s, p) && !Progress.Finishes(o.value.s, c)
  {
    var s0, ls := Init(1, 7, 65536, 65536), [AppSend([65, 0], 1)] + [LoseData(WirePacket(1, 7, [65, 0]))];
    assert Started(s0);
    hide Exec, Init, Started, Progress.Finishes, Delivered, Clean, Stalls.Gone, Deliverable.NulsOnTheirWay;
    var t := FirstSegmentLost();
    Stalls.FullDeliveryPossibleIff(s0, ls, t, c);
    StillMissing(t, WirePacket(1, 7, [65, 0]));
  }

  lemma StillMissing(s: Sys, p: Packet)
    requires Stalls.Gone(s, p)
    ensures !Deliverable.NulsOnTheirWay(s)
  {
  }

  // ---------------------------------------------------------------- no room

  /** A byte that arrives in sequence without room for it is lost for good: no continuation that does not abort
      ever delivers the accepted stream again. */
  lemma OverflowIsNeverRepaired(s: Sys, l: Label, ls: seq<Label>)
    requires Inv(s) && Delivered(s) && Enabled(s, l) && Overflows(s, l) && Next(s, l).Running?
    requires Exec(Next(s, l).s, ls).Some? && Exec(Next(s, l).s, ls).value.Running?
    ensures !Delivered(Exec(Next(s, l).s, ls).value.s)
  {
    hide Inv, Delivered, Deficit, Exec, Next;
    DeliveredNoDeficit(s);
    GainStep(s, l);
    var t := Next(s, l).s;
    if Delivered(t) {
      DeliveredNoDeficit(t);
    }
    DeliveredFrom(t, ls);
  }
}
