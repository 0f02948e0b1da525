/** Recovery: what it takes from the heap, what it keeps, and when its assertion fails. */
module ReceiverProofs {
  import opened TouTypes
  import opened History
  import opened ReceiverModel

  ghost predicate Strict(heap: seq<Packet>) {
    forall i, j :: 0 <= i < j < |heap| ==> heap[i].seqNo < heap[j].seqNo
  }

  ghost predicate AllData(h: Hist, rn: nat, heap: seq<Packet>) {
    forall i :: 0 <= i < |heap| ==> DataOk(h, rn, heap[i])
  }

  /** Every stored packet is a segment, and none is stored twice. */
  ghost predicate Clean(h: Hist, rn: nat, heap: seq<Packet>) {
    Strict(heap) && AllData(h, rn, heap)
  }

  ghost predicate AllSent(h: Hist, rn: nat, heap: seq<Packet>) {
    forall i :: 0 <= i < |heap| ==> SentOk(h, rn, heap[i]) && heap[i].payload != []
  }

  /** A sorted heap of what the sender transmits, none below r. */
  ghost predicate HeapOk(h: Hist, rn: nat, heap: seq<Packet>, r: nat) {
    Sorted(heap) && AllSent(h, rn, heap) && (forall i :: 0 <= i < |heap| ==> r <= heap[i].seqNo)
  }

  /** r is a boundary inside the stream. */
  ghost predicate AtCut(h: Hist, r: nat) {
    r in h.cuts && h.base <= r <= h.base + |h.st|
  }

  // ---------------------------------------------------------------- recovery

  lemma SegsInOrder(h: Hist, rn: nat, p: Packet, q: Packet)
    requires DataOk(h, rn, p) && DataOk(h, rn, q) && p.seqNo <= q.seqNo
    ensures p.seqNo == q.seqNo ==> p == q
    ensures p.seqNo < q.seqNo ==> p.End() <= q.seqNo
  {
  }

  /** A transmission that starts at a boundary is a segment: mangled packets start inside one. */
  lemma AtCutData(h: Hist, rn: nat, p: Packet)
    requires SentOk(h, rn, p) && p.payload != [] && p.seqNo in h.cuts
    ensures DataOk(h, rn, p)
  {
    if Mangled(h, rn, p) {
      MangledOffCut(h, rn, p);
    }
  }

  /** What can overlap a segment: another copy of it, or what is left of one. */
  lemma OverlapMeaning(h: Hist, rn: nat, p: Packet, q: Packet)
    requires DataOk(h, rn, p) && SentOk(h, rn, q) && q.payload != [] && p.seqNo <= q.seqNo < p.End()
    ensures q == p || (p.seqNo < q.seqNo && q.End() == p.End() && Mangled(h, rn, q))
  {
    if Mangled(h, rn, q) {
      var lo :| MangledAt(h, rn, q, lo);
      assert lo in h.cuts && q.End() in h.cuts && p.seqNo in h.cuts && p.End() in h.cuts;
    } else {
      SegsInOrder(h, rn, p, q);
    }
  }

  lemma DataRange(h: Hist, rn: nat, p: Packet)
    requires DataOk(h, rn, p)
    ensures AtCut(h, p.seqNo) && AtCut(h, p.End()) && p.seqNo < p.End()
  {
  }

  /** Recovery moves a prefix of the heap, the segments that follow rcv_nxt, into the buffer and
      stops at a gap, at a segment that does not fit, or at the assertion. */
  lemma {:induction false} RecoverMeaning(h: Hist, rn: nat, heap: seq<Packet>, r: nat, cb: seq<Byte>)
    requires Sorted(heap) && AllSent(h, rn, heap) && AtCut(h, r)
    ensures var o := Recover(heap, r, cb);
            && |o.heap| <= |heap| && o.heap == heap[|heap| - |o.heap|..]
            && r <= o.rcvNxt && AtCut(h, o.rcvNxt)
            && (forall i :: 0 <= i < |heap| - |o.heap| ==> heap[i].End() <= o.rcvNxt)
            && (o.res == RecDone ==> forall i :: 0 <= i < |o.heap| ==> o.rcvNxt < o.heap[i].seqNo)
            && (o.res == RecNoRoom ==> o.heap != [] && o.heap[0].seqNo == o.rcvNxt && !CbFits(o.cb, o.heap[0].payload))
            && (o.res == RecAssert ==> o.heap != [] && o.heap[0].seqNo < o.rcvNxt)
    decreases |heap|
  {
    hide DataOk, SentOk, IsSeg, CbFits;
    var o := Recover(heap, r, cb);
    if heap != [] && heap[0].seqNo == r && CbFits(cb, heap[0].payload) {
      var p, tl := heap[0], heap[1..];
      AtCutData(h, rn, p);
      DataRange(h, rn, p);
      RecoverMeaning(h, rn, tl, p.End(), cb + p.payload);
      assert |heap| - |o.heap| >= 1;
      forall i | 0 <= i < |heap| - |o.heap|
        ensures heap[i].End() <= o.rcvNxt
      {
        if i > 0 {
          assert heap[i] == tl[i - 1];
        }
      }
    }
  }

  /** ... and what it moves are exactly the stream's bytes between the old and the new rcv_nxt. */
  lemma {:induction false} RecoverBytes(h: Hist, rn: nat, heap: seq<Packet>, r: nat, cb: seq<Byte>)
    requires Sorted(heap) && AllSent(h, rn, heap) && AtCut(h, r)
    ensures var o := Recover(heap, r, cb);
            o.cb == cb + Bytes(h, r, o.rcvNxt)
    decreases |heap|
  {
    var o := Recover(heap, r, cb);
    if heap != [] && heap[0].seqNo == r && CbFits(cb, heap[0].payload) {
      var p, tl := heap[0], heap[1..];
      AtCutData(h, rn, p);
      assert p.payload == Bytes(h, r, p.End());
      DataRange(h, rn, p);
      RecoverMeaning(h, rn, tl, p.End(), cb + p.payload);
      RecoverBytes(h, rn, tl, p.End(), cb + p.payload);
      hide Bytes, Sorted, AllSent, DataOk;
      BytesJoin(h, r, p.End(), o.rcvNxt);
      assert (cb + p.payload) + Bytes(h, p.End(), o.rcvNxt) == cb + (p.payload + Bytes(h, p.End(), o.rcvNxt));
    } else {
      assert Bytes(h, r, r) == [];
    }
  }

  /** No assertion fails while every stored packet is a segment, and none is stored twice. */
  lemma {:induction false} CleanNeverAsserts(h: Hist, rn: nat, heap: seq<Packet>, r: nat, cb: seq<Byte>)
    requires Clean(h, rn, heap) && forall i :: 0 <= i < |heap| ==> r <= heap[i].seqNo
    ensures Recover(heap, r, cb).res != RecAssert
    decreases |heap|
  {
    if heap != [] && heap[0].seqNo == r && CbFits(cb, heap[0].payload) {
      var p, tl := heap[0], heap[1..];
      forall i | 0 <= i < |tl|
        ensures p.End() <= tl[i].seqNo
      {
        SegsInOrder(h, rn, p, heap[i + 1]);
      }
      CleanNeverAsserts(h, rn, tl, p.End(), cb + p.payload);
    }
  }

  // ---------------------------------------------------------------- when the assertion fails

  /** Where recovery stands after it has taken i packets. */
  function RightOf(heap: seq<Packet>, r: nat, i: nat): nat
    requires i <= |heap|
  {
    if i == 0 then r else heap[i - 1].End()
  }

  /** The first i packets of the heap are the next in line and all of them fit. */
  ghost predicate Reaches(heap: seq<Packet>, r: nat, cb: seq<Byte>, i: nat)
    requires i <= |heap|
  {
    && (forall j :: 0 <= j < i ==> heap[j].seqNo == RightOf(heap, r, j) && heap[j].payload != [])
    && (i > 0 ==> |cb| + (RightOf(heap, r, i) - r) < MAX_CIRCULAR_BUF)
  }

  /** Recovery gets to a packet that starts before the end of what it has just taken. */
  ghost predicate MeetsOverlap(heap: seq<Packet>, r: nat, cb: seq<Byte>) {
    exists i :: 0 <= i < |heap| && Reaches(heap, r, cb, i) && heap[i].seqNo < RightOf(heap, r, i)
  }

  lemma {:induction false} LineGrows(heap: seq<Packet>, r: nat, i: nat)
    requires 1 <= i <= |heap| && forall j :: 0 <= j < i ==> heap[j].seqNo == RightOf(heap, r, j)
    ensures heap[0].End() <= RightOf(heap, r, i)
    decreases i
  {
    if i > 1 {
      LineGrows(heap, r, i - 1);
      assert heap[i - 1].seqNo == RightOf(heap, r, i - 1);
    }
  }

  lemma ReachesTail(heap: seq<Packet>, r: nat, cb: seq<Byte>, i: nat)
    requires 1 <= i <= |heap| && heap[0].seqNo == r
    ensures Reaches(heap, r, cb, i) <==>
            CbFits(cb, heap[0].payload) && Reaches(heap[1..], heap[0].End(), cb + heap[0].payload, i - 1)
  {
    var tl, r', cb' := heap[1..], heap[0].End(), cb + heap[0].payload;
    assert RightOf(tl, r', i - 1) == RightOf(heap, r, i);
    if Reaches(heap, r, cb, i) {
      LineGrows(heap, r, i);
      assert heap[0].payload != [];
      forall j | 0 <= j < i - 1
        ensures tl[j].seqNo == RightOf(tl, r', j) && tl[j].payload != []
      {
        assert heap[j + 1].seqNo == RightOf(heap, r, j + 1) && heap[j + 1].payload != [];
      }
    }
    if CbFits(cb, heap[0].payload) && Reaches(tl, r', cb', i - 1) {
      forall j | 0 <= j < i
        ensures heap[j].seqNo == RightOf(heap, r, j) && heap[j].payload != []
      {
        if j > 0 {
          assert tl[j - 1].seqNo == RightOf(tl, r', j - 1) && tl[j - 1].payload != [];
        }
      }
    }
  }

  lemma MeetsOverlapTail(heap: seq<Packet>, r: nat, cb: seq<Byte>)
    requires heap != [] && heap[0].seqNo == r
    ensures MeetsOverlap(heap, r, cb) <==>
            CbFits(cb, heap[0].payload) && MeetsOverlap(heap[1..], heap[0].End(), cb + heap[0].payload)
  {
    var tl, r', cb' := heap[1..], heap[0].End(), cb + heap[0].payload;
    hide Reaches;
    if MeetsOverlap(heap, r, cb) {
      var i :| 0 <= i < |heap| && Reaches(heap, r, cb, i) && heap[i].seqNo < RightOf(heap, r, i);
      ReachesTail(heap, r, cb, i);
      assert tl[i - 1].seqNo < RightOf(tl, r', i - 1);
    }
    if CbFits(cb, heap[0].payload) && MeetsOverlap(tl, r', cb') {
      var i :| 0 <= i < |tl| && Reaches(tl, r', cb', i) && tl[i].seqNo < RightOf(tl, r', i);
      ReachesTail(heap, r, cb, i + 1);
      assert heap[i + 1].seqNo < RightOf(heap, r, i + 1);
    }
  }

  lemma GapStops(heap: seq<Packet>, r: nat, cb: seq<Byte>)
    requires MeetsOverlap(heap, r, cb)
    ensures heap != [] && heap[0].seqNo <= r
  {
    var i :| 0 <= i < |heap| && Reaches(heap, r, cb, i) && heap[i].seqNo < RightOf(heap, r, i);
    assert i > 0 ==> heap[0].seqNo == RightOf(heap, r, 0);
  }

  /** The assertion in do_proc_pkt_rec fails exactly when recovery gets to a packet that overlaps what it has
      just taken. */
  lemma {:induction false} RecoverAssertsIff(heap: seq<Packet>, r: nat, cb: seq<Byte>)
    ensures Recover(heap, r, cb).res == RecAssert <==> MeetsOverlap(heap, r, cb)
    decreases |heap|
  {
    if heap != [] {
      if heap[0].seqNo == r {
        MeetsOverlapTail(heap, r, cb);
        if CbFits(cb, heap[0].payload) {
          RecoverAssertsIff(heap[1..], heap[0].End(), cb + heap[0].payload);
        }
      } else if heap[0].seqNo < r {
        assert Reaches(heap, r, cb, 0);
      } else {
        if MeetsOverlap(heap, r, cb) {
          GapStops(heap, r, cb);
        }
      }
    }
  }
}
