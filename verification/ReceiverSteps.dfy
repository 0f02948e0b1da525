/** What one receive step keeps, what it moves, and when it ends the process. */
module ReceiverSteps {
  import opened TouTypes
  import opened History
  import opened DelayedAck
  import opened ReceiverModel
  import opened ReceiverProofs

  // ---------------------------------------------------------------- the out-of-order heap

  lemma {:induction false} FirstSlotFits(h: seq<Packet>, p: Packet)
    requires Sorted(h)
    ensures HeapSlot(h, p, FirstSlot(h, p))
    decreases |h|
  {
    if h != [] && h[0].seqNo < p.seqNo {
      var k := FirstSlot(h[1..], p);
      FirstSlotFits(h[1..], p);
      forall i | 0 <= i < |h|
        ensures if i < k + 1 then h[i].seqNo <= p.seqNo else p.seqNo <= h[i].seqNo
      {
        if i > 0 {
          assert h[i] == h[1..][i - 1];
        }
      }
    }
  }

  /** The place PushPkt uses. */
  function Slot(h: seq<Packet>, p: Packet, k: nat): (j: nat)
    ensures j <= |h|
  {
    if HeapSlot(h, p, k) then k else FirstSlot(h, p)
  }

  lemma InsertedAt(h: seq<Packet>, p: Packet, j: nat)
    requires j <= |h|
    ensures var q := h[..j] + [p] + h[j..];
            && |q| == |h| + 1
            && (forall i :: 0 <= i < |q| ==> q[i] == if i < j then h[i] else if i == j then p else h[i - 1])
  {
  }

  lemma PushMultiset(h: seq<Packet>, p: Packet, k: nat)
    ensures multiset(PushPkt(h, p, k)) == multiset(h) + multiset{p}
  {
    var j := Slot(h, p, k);
    assert PushPkt(h, p, k) == h[..j] + [p] + h[j..];
    assert h == h[..j] + h[j..];
  }

  lemma PushMeaning(h: seq<Packet>, p: Packet, k: nat)
    requires Sorted(h)
    ensures var j, q := Slot(h, p, k), PushPkt(h, p, k);
            && HeapSlot(h, p, j)
            && |q| == |h| + 1
            && (forall i :: 0 <= i < |q| ==> q[i] == if i < j then h[i] else if i == j then p else h[i - 1])
  {
    FirstSlotFits(h, p);
    InsertedAt(h, p, Slot(h, p, k));
  }

  lemma PushSorted(h: seq<Packet>, p: Packet, k: nat)
    requires Sorted(h)
    ensures Sorted(PushPkt(h, p, k))
    ensures Strict(h) && (forall i :: 0 <= i < |h| ==> h[i].seqNo != p.seqNo) ==> Strict(PushPkt(h, p, k))
  {
    PushMeaning(h, p, k);
    hide PushPkt, Slot;
  }

  lemma PushData(h: Hist, rn: nat, heap: seq<Packet>, r: nat, p: Packet, k: nat)
    requires HeapOk(h, rn, heap, r) && SentOk(h, rn, p) && p.payload != [] && r <= p.seqNo
    ensures HeapOk(h, rn, PushPkt(heap, p, k), r)
    ensures AllData(h, rn, heap) && DataOk(h, rn, p) ==> AllData(h, rn, PushPkt(heap, p, k))
    ensures (forall i :: 0 <= i < |heap| ==> r < heap[i].seqNo) && r < p.seqNo ==>
              forall i :: 0 <= i < |PushPkt(heap, p, k)| ==> r < PushPkt(heap, p, k)[i].seqNo
  {
    hide Slot, HeapSlot, Sorted, Strict, DataOk, SentOk;
    PushSorted(heap, p, k);
    var q := PushPkt(heap, p, k);
    forall i | 0 <= i < |q|
      ensures q[i] == p || q[i] in heap
    {
      PushIn(heap, p, k, i);
    }
  }

  lemma PushIn(h: seq<Packet>, p: Packet, k: nat, i: nat)
    requires i < |PushPkt(h, p, k)|
    ensures PushPkt(h, p, k)[i] == p || PushPkt(h, p, k)[i] in h
  {
    var j := Slot(h, p, k);
    InsertedAt(h, p, j);
    assert PushPkt(h, p, k) == h[..j] + [p] + h[j..];
  }

  lemma PushStrict(h: Hist, rn: nat, heap: seq<Packet>, p: Packet, k: nat)
    requires Sorted(heap) && AllData(h, rn, heap) && DataOk(h, rn, p) && Strict(heap) && p !in heap
    ensures Strict(PushPkt(heap, p, k))
  {
    forall i | 0 <= i < |heap|
      ensures heap[i].seqNo != p.seqNo
    {
      assert heap[i] in heap;
      if heap[i].seqNo == p.seqNo {
        SegsInOrder(h, rn, heap[i], p);
      }
    }
    PushSorted(heap, p, k);
  }

  // ---------------------------------------------------------------- the receiver invariant

  /** rcv_nxt is a boundary; the heap holds only later segments; while the next run starts by reading,
      none of them is next in line; an ack node exists once anything was received. */
  ghost predicate RInv(h: Hist, rn: nat, r: Receiver) {
    && AtCut(h, r.rcvNxt)
    && HeapOk(h, rn, r.heap, r.rcvNxt)
    && DelInv(r.del, r.rcvNxt)
    && (if r.recovering then r.heap != [] && r.heap[0].seqNo == r.rcvNxt && r.del.st == DEL_IMMED
        else r.del.st != DEL_IMMED && (forall i :: 0 <= i < |r.heap| ==> r.rcvNxt < r.heap[i].seqNo))
    && (!r.recovering && h.base < r.rcvNxt ==> r.del.nodes != [])
  }

  lemma SendBackAckInv(r: Receiver, now: int)
    requires DelInv(r.del, r.rcvNxt)
    ensures var o := SendBackAck(r, now);
            && o.RcvOk? && o.acks <= 1
            && o.r == r.(del := o.r.del) && DelInv(o.r.del, r.rcvNxt)
            && o.r.del.nodes != [] && o.r.del.st != DEL_IMMED
            && (r.del.st == DEL_IMMED ==> o.acks == 1)
  {
    DelStepInv(r.del, r.rcvNxt, ProcStep(now));
  }

  lemma SuffixOk(h: Hist, rn: nat, heap: seq<Packet>, tl: seq<Packet>, r: nat)
    requires Sorted(heap) && AllSent(h, rn, heap) && |tl| <= |heap| && tl == heap[|heap| - |tl|..]
    requires tl != [] ==> r <= tl[0].seqNo
    ensures HeapOk(h, rn, tl, r) && (Clean(h, rn, heap) ==> Clean(h, rn, tl))
  {
    var k := |heap| - |tl|;
    assert forall i :: 0 <= i < |tl| ==> tl[i] == heap[k + i];
  }

  /** A recovery that ends, or has nothing to do, sends an ack (or queues it) and lets the next run read. */
  lemma FinishInv(h: Hist, rn: nat, r: Receiver, now: int)
    requires AtCut(h, r.rcvNxt) && HeapOk(h, rn, r.heap, r.rcvNxt) && DelInv(r.del, r.rcvNxt) && !r.recovering
    requires forall i :: 0 <= i < |r.heap| ==> r.rcvNxt < r.heap[i].seqNo
    ensures var o := SendBackAck(r, now);
            && o.RcvOk? && o.acks <= 1 && RInv(h, rn, o.r) && o.r == r.(del := o.r.del)
            && (r.del.st == DEL_IMMED ==> o.acks == 1)
  {
    SendBackAckInv(r, now);
  }

  lemma RecoveryUnfold(r: Receiver, now: int)
    ensures var c := Recover(r.heap, r.rcvNxt, r.cb);
            var r1 := r.(heap := c.heap, rcvNxt := c.rcvNxt, cb := c.cb, recovering := false);
            var imm := r.del.(st := DEL_IMMED);
            RecoveryStep(r, now) ==
            match c.res
            case RecAssert => RcvAbort
            case RecDone => SendBackAck(if r.heap == [] then r1 else r1.(del := imm), now)
            case RecNoRoom => RcvOk(r1.(del := imm, recovering := true), 0)
  {
  }

  /** One pass through PKT_RECOVERY. */
  lemma RecoveryInv(h: Hist, rn: nat, r: Receiver, now: int)
    requires AtCut(h, r.rcvNxt) && Sorted(r.heap) && AllSent(h, rn, r.heap) && DelInv(r.del, r.rcvNxt)
    ensures var o, c := RecoveryStep(r, now), Recover(r.heap, r.rcvNxt, r.cb);
            && (o.RcvAbort? <==> c.res == RecAssert)
            && (o.RcvOk? ==>
                  && RInv(h, rn, o.r) && o.acks <= 1
                  && r.rcvNxt <= o.r.rcvNxt
                  && o.r.heap == c.heap && o.r.rcvNxt == c.rcvNxt && o.r.cb == c.cb
                  && (o.r.recovering <==> c.res == RecNoRoom)
                  && (r.heap != [] ==> (o.acks == 1 <==> !o.r.recovering))
                  && (Clean(h, rn, r.heap) ==> Clean(h, rn, o.r.heap)))
  {
    RecoverMeaning(h, rn, r.heap, r.rcvNxt, r.cb);
    RecoveryUnfold(r, now);
    var c := Recover(r.heap, r.rcvNxt, r.cb);
    var r1 := r.(heap := c.heap, rcvNxt := c.rcvNxt, cb := c.cb, recovering := false);
    var imm := r.del.(st := DEL_IMMED);
    hide IsSeg, Clean, Recover, CbFits, AllSent, SendBackAck, RecoveryStep;
    if c.res != RecAssert {
      SuffixOk(h, rn, r.heap, c.heap, c.rcvNxt);
      if c.res == RecDone {
        FinishInv(h, rn, if r.heap == [] then r1 else r1.(del := imm), now);
      }
    }
  }

  lemma SuffixMultiset(heap: seq<Packet>, tl: seq<Packet>)
    requires |tl| <= |heap| && tl == heap[|heap| - |tl|..]
    ensures multiset(tl) <= multiset(heap)
  {
    var k := |heap| - |tl|;
    assert heap == heap[..k] + heap[k..];
  }

  /** The segment that is next in line ends at a boundary, and the heap stays as it is. */
  lemma AfterMatch(h: Hist, rn: nat, r: Receiver, p: Packet)
    requires RInv(h, rn, r) && !r.recovering && DataOk(h, rn, p) && p.seqNo == r.rcvNxt
    ensures AtCut(h, p.End()) && Sorted(r.heap) && AllSent(h, rn, r.heap) && DelInv(r.del, p.End())
    ensures Clean(h, rn, r.heap) ==> forall i :: 0 <= i < |r.heap| ==> p.End() <= r.heap[i].seqNo
  {
    if Clean(h, rn, r.heap) {
      forall i | 0 <= i < |r.heap|
        ensures p.End() <= r.heap[i].seqNo
      {
        SegsInOrder(h, rn, p, r.heap[i]);
      }
    }
  }

  /** The bytes a step puts into cb_recv when it hands p over; a match that does not fit loses p's. */
  function Gained(h: Hist, r: Receiver, p: Packet, rcvNxt': nat): seq<Byte> {
    if p.seqNo == r.rcvNxt && !CbFits(r.cb, p.payload) then Bytes(h, p.End(), rcvNxt')
    else Bytes(h, r.rcvNxt, rcvNxt')
  }

  lemma RcvDataInv(h: Hist, rn: nat, r: Receiver, p: Packet, k: nat, now: int)
    requires RInv(h, rn, r) && !r.recovering && SentOk(h, rn, p) && p.payload != []
    ensures var o := RcvData(r, p, k, now);
            && (o.RcvAbort? <==>
                  p.seqNo == r.rcvNxt && MeetsOverlap(r.heap, p.End(), CbInsert(r.cb, p.payload)))
            && (o.RcvOk? ==>
                  && RInv(h, rn, o.r) && o.acks <= 1 && r.rcvNxt <= o.r.rcvNxt
                  && (p.seqNo == r.rcvNxt ==> p.End() <= o.r.rcvNxt && DataOk(h, rn, p))
                  && o.r.cb == r.cb + Gained(h, r, p, o.r.rcvNxt))
            && (Clean(h, rn, r.heap) && DataOk(h, rn, p) && (r.rcvNxt < p.seqNo ==> p !in r.heap) ==>
                  o.RcvOk? && Clean(h, rn, o.r.heap))
  {
    hide Bytes, SentOk, DataOk;
    if p.seqNo == r.rcvNxt {
      AtCutData(h, rn, p);
      MatchInv(h, rn, r, p, now);
    } else if p.seqNo > r.rcvNxt {
      PushData(h, rn, r.heap, r.rcvNxt, p, k);
      PushMeaning(r.heap, p, k);
      if Clean(h, rn, r.heap) && DataOk(h, rn, p) && p !in r.heap {
        PushStrict(h, rn, r.heap, p, k);
      }
      var r1 := r.(heap := PushPkt(r.heap, p, k), del := r.del.(st := DEL_IMMED));
      SendBackAckInv(r1, now);
      EmptyBytes(h, r.rcvNxt);
    } else {
      EmptyBytes(h, r.rcvNxt);
    }
  }

  lemma EmptyBytes(h: Hist, r: nat)
    ensures Bytes(h, r, r) == []
  {
  }

  lemma MatchInv(h: Hist, rn: nat, r: Receiver, p: Packet, now: int)
    requires RInv(h, rn, r) && !r.recovering && DataOk(h, rn, p) && p.seqNo == r.rcvNxt
    ensures var o := MatchStep(r, p, now);
            && (o.RcvAbort? <==> MeetsOverlap(r.heap, p.End(), CbInsert(r.cb, p.payload)))
            && (o.RcvOk? ==>
                  && RInv(h, rn, o.r) && o.acks <= 1 && p.End() <= o.r.rcvNxt
                  && o.r.cb == r.cb + Gained(h, r, p, o.r.rcvNxt))
            && (Clean(h, rn, r.heap) ==> o.RcvOk? && Clean(h, rn, o.r.heap))
  {
    AfterMatch(h, rn, r, p);
    hide Bytes, IsSeg, Recover, MeetsOverlap, Sorted, AllSent, Clean;
    var cb1 := CbInsert(r.cb, p.payload);
    var r1 := r.(rcvNxt := p.End(), cb := cb1);
    RecoveryInv(h, rn, r1, now);
    RecoverAssertsIff(r.heap, p.End(), cb1);
    RecoverBytes(h, rn, r.heap, p.End(), cb1);
    if Clean(h, rn, r.heap) {
      CleanNeverAsserts(h, rn, r.heap, p.End(), cb1);
    }
    var o := MatchStep(r, p, now);
    if o.RcvOk? && CbFits(r.cb, p.payload) {
      PayloadBytes(h, rn, p);
      BytesJoin(h, r.rcvNxt, p.End(), o.r.rcvNxt);
      AssocBytes(r.cb, p.payload, Bytes(h, p.End(), o.r.rcvNxt));
    }
  }

  lemma PayloadBytes(h: Hist, rn: nat, p: Packet)
    requires DataOk(h, rn, p)
    ensures h.base <= p.seqNo < p.End() <= h.base + |h.st| && p.payload == Bytes(h, p.seqNo, p.End())
  {
  }

  lemma AssocBytes(a: seq<Byte>, b: seq<Byte>, c: seq<Byte>)
    ensures (a + b) + c == a + (b + c)
  {
  }

  /** A run that resumes a stalled recovery. */
  lemma ResumeInv(h: Hist, rn: nat, r: Receiver, now: int)
    requires RInv(h, rn, r) && r.recovering
    ensures var o := RecoveryStep(r, now);
            && (o.RcvAbort? <==> MeetsOverlap(r.heap, r.rcvNxt, r.cb))
            && (o.RcvOk? ==>
                  && RInv(h, rn, o.r) && o.acks <= 1 && r.rcvNxt <= o.r.rcvNxt
                  && (o.acks == 1 <==> !o.r.recovering)
                  && o.r.cb == r.cb + Bytes(h, r.rcvNxt, o.r.rcvNxt))
            && (Clean(h, rn, r.heap) ==> o.RcvOk? && Clean(h, rn, o.r.heap))
  {
    hide Bytes;
    RecoveryInv(h, rn, r, now);
    RecoverAssertsIff(r.heap, r.rcvNxt, r.cb);
    RecoverBytes(h, rn, r.heap, r.rcvNxt, r.cb);
    if Clean(h, rn, r.heap) {
      CleanNeverAsserts(h, rn, r.heap, r.rcvNxt, r.cb);
    }
  }

  /** Nothing enters the heap but p, and nothing is stored twice that was not. */
  lemma RecoveryHeap(h: Hist, rn: nat, r: Receiver, now: int)
    requires Sorted(r.heap) && AllSent(h, rn, r.heap) && AtCut(h, r.rcvNxt)
    ensures var o := RecoveryStep(r, now);
            o.RcvOk? ==> multiset(o.r.heap) <= multiset(r.heap)
  {
    RecoverMeaning(h, rn, r.heap, r.rcvNxt, r.cb);
    RecoveryUnfold(r, now);
    SuffixMultiset(r.heap, Recover(r.heap, r.rcvNxt, r.cb).heap);
  }

  /** What leaves the heap lies below the new rcv_nxt. */
  lemma RecoveryTaken(h: Hist, rn: nat, r: Receiver, now: int)
    requires Sorted(r.heap) && AllSent(h, rn, r.heap) && AtCut(h, r.rcvNxt) && RecoveryStep(r, now).RcvOk?
    ensures var t := RecoveryStep(r, now).r;
            r.rcvNxt <= t.rcvNxt && forall q :: q in r.heap ==> q in t.heap || q.seqNo < t.rcvNxt
  {
    RecoverMeaning(h, rn, r.heap, r.rcvNxt, r.cb);
    RecoveryUnfold(r, now);
    var c := Recover(r.heap, r.rcvNxt, r.cb);
    hide Recover, RecoveryStep, SentOk, SendBackAck;
    RestOrBelow(h, rn, r.heap, c.heap, c.rcvNxt);
  }

  lemma RestOrBelow(h: Hist, rn: nat, heap: seq<Packet>, tl: seq<Packet>, r: nat)
    requires AllSent(h, rn, heap) && |tl| <= |heap| && tl == heap[|heap| - |tl|..]
    requires forall i :: 0 <= i < |heap| - |tl| ==> heap[i].End() <= r
    ensures forall q :: q in heap ==> q in tl || q.seqNo < r
  {
    hide SentOk;
    forall q | q in heap
      ensures q in tl || q.seqNo < r
    {
      var i :| 0 <= i < |heap| && heap[i] == q;
      if i >= |heap| - |tl| {
        assert tl[i - (|heap| - |tl|)] == q;
      }
    }
  }

  lemma RcvDataHeap(h: Hist, rn: nat, r: Receiver, p: Packet, k: nat, now: int)
    requires RInv(h, rn, r) && !r.recovering && SentOk(h, rn, p) && p.payload != []
    ensures var o := RcvData(r, p, k, now);
            o.RcvOk? ==>
              && multiset(o.r.heap) <= multiset(r.heap) + multiset{p}
              && (p.seqNo <= r.rcvNxt ==> multiset(o.r.heap) <= multiset(r.heap))
  {
    if p.seqNo == r.rcvNxt {
      AtCutData(h, rn, p);
      AfterMatch(h, rn, r, p);
      RecoveryHeap(h, rn, r.(rcvNxt := p.End(), cb := CbInsert(r.cb, p.payload)), now);
    } else if p.seqNo > r.rcvNxt {
      PushMultiset(r.heap, p, k);
    }
  }

  /** When the receiver acknowledges: out-of-order data and a recovery at once, a plain match at least every
      second time, old data and a stalled recovery never. */
  lemma AckPolicy(h: Hist, rn: nat, r: Receiver, p: Packet, k: nat, now: int)
    requires RInv(h, rn, r) && !r.recovering && RcvData(r, p, k, now).RcvOk?
    ensures var o := RcvData(r, p, k, now);
            && (p.seqNo > r.rcvNxt ==> o.acks == 1 && o.r.rcvNxt == r.rcvNxt && o.r.cb == r.cb)
            && (p.seqNo < r.rcvNxt ==> o.acks == 0 && o.r == r)
            && (p.seqNo == r.rcvNxt ==>
                  (o.acks == 1 <==> !o.r.recovering && (r.heap != [] || r.del.st != DEL_QUE)))
  {
    if p.seqNo > r.rcvNxt {
      SendBackAckInv(r.(heap := PushPkt(r.heap, p, k), del := r.del.(st := DEL_IMMED)), now);
    } else if p.seqNo == r.rcvNxt {
      RecoveryUnfold(r.(rcvNxt := p.End(), cb := CbInsert(r.cb, p.payload)), now);
    }
  }
}
