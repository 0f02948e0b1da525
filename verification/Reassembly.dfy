/** Whole-stream properties of the receive path: order independence, resumable recovery, and the
    exact condition under which a match keeps the stream. */
module Reassembly {
  import opened TouTypes
  import opened History
  import opened DelayedAck
  import opened ReceiverModel
  import opened ReceiverProofs
  import opened ReceiverSteps

  // ---------------------------------------------------------------- order independence

  /** Data packets handed to the receiver one after the other; ks places ties in the heap. */
  function Feed(r: Receiver, ps: seq<Packet>, ks: seq<nat>, now: int): Option<Receiver>
    requires |ks| == |ps|
    decreases |ps|
  {
    if ps == [] then Some(r)
    else
      var o := RcvData(r, ps[0], ks[0], now);
      if o.RcvAbort? || o.r.recovering then None else Feed(o.r, ps[1..], ks[1..], now)
  }

  /** segs cuts a byte stream that starts at lo into non-empty packets. */
  ghost predicate Segmentation(segs: seq<Packet>, rn: nat, lo: nat)
    decreases |segs|
  {
    segs != [] ==>
      && segs[0] == WirePacket(lo, rn, segs[0].payload)
      && 0 < |segs[0].payload| <= MAX_PAYLOAD
      && Segmentation(segs[1..], rn, segs[0].End())
  }

  function StreamOf(segs: seq<Packet>): seq<Byte> {
    if segs == [] then [] else segs[0].payload + StreamOf(segs[1..])
  }

  function SegHist(segs: seq<Packet>, lo: nat): Hist {
    Hist(lo, StreamOf(segs), {lo} + Ends(segs), multiset{})
  }

  lemma {:induction false} CutsInRange(segs: seq<Packet>, rn: nat, lo: nat, c: nat)
    requires Segmentation(segs, rn, lo) && c in Ends(segs)
    ensures lo < c <= lo + |StreamOf(segs)| && (segs != [] ==> segs[0].End() <= c)
    decreases |segs|
  {
    if segs != [] && c != segs[0].End() {
      CutsInRange(segs[1..], rn, segs[0].End(), c);
    }
  }

  /** A segment of the rest of a stream is a segment of the whole stream. */
  lemma ConsHist(segs: seq<Packet>, rn: nat, lo: nat, p: Packet)
    requires Segmentation(segs, rn, lo) && segs != []
    requires DataOk(SegHist(segs[1..], segs[0].End()), rn, p)
    ensures DataOk(SegHist(segs, lo), rn, p)
  {
    var s, tl, mid := segs[0], segs[1..], segs[0].End();
    var h0, h := SegHist(tl, mid), SegHist(segs, lo);
    var a, b := p.seqNo - mid, p.End() - mid;
    assert h.st == s.payload + h0.st;
    assert h.st[|s.payload| + a..|s.payload| + b] == h0.st[a..b];
    forall c | c in h.cuts
      ensures c <= p.seqNo || p.End() <= c
    {
      if c != lo && c != mid {
        assert c in h0.cuts;
      }
    }
  }

  lemma {:induction false} SegmentationIsData(segs: seq<Packet>, rn: nat, lo: nat, i: nat)
    requires Segmentation(segs, rn, lo) && i < |segs|
    ensures DataOk(SegHist(segs, lo), rn, segs[i])
    decreases |segs|
  {
    var h := SegHist(segs, lo);
    if i == 0 {
      var s := segs[0];
      assert h.st[..|s.payload|] == s.payload;
      forall c | c in h.cuts
        ensures c <= lo || s.End() <= c
      {
        if c != lo {
          CutsInRange(segs, rn, lo, c);
        }
      }
    } else {
      SegmentationIsData(segs[1..], rn, segs[0].End(), i - 1);
      ConsHist(segs, rn, lo, segs[i]);
    }
  }

  /** Every boundary before the end of the stream starts a segment. */
  lemma {:induction false} BoundaryStartsSegment(segs: seq<Packet>, rn: nat, lo: nat, c: nat)
    requires Segmentation(segs, rn, lo) && (c == lo || c in Ends(segs)) && c < lo + |StreamOf(segs)|
    ensures exists i :: 0 <= i < |segs| && segs[i].seqNo == c
    decreases |segs|
  {
    if c == lo {
      assert segs[0].seqNo == c;
    } else {
      BoundaryStartsSegment(segs[1..], rn, segs[0].End(), c);
      var i :| 0 <= i < |segs[1..]| && segs[1..][i].seqNo == c;
      assert segs[i + 1].seqNo == c;
    }
  }

  /** The state after the packets in fed arrived, in whatever order. */
  ghost predicate Fed(h: Hist, rn: nat, cb0: seq<Byte>, r: Receiver, fed: set<Packet>) {
    && RInv(h, rn, r) && Clean(h, rn, r.heap) && !r.recovering
    && r.cb == cb0 + Bytes(h, h.base, r.rcvNxt)
    && (forall i :: 0 <= i < |r.heap| ==> r.heap[i] in fed)
    && (forall p :: p in fed ==> p.seqNo < r.rcvNxt || p in r.heap)
  }

  lemma RoomForStream(h: Hist, rn: nat, cb: seq<Byte>, heap: seq<Packet>, r: nat)
    requires Sorted(heap) && AllSent(h, rn, heap) && AtCut(h, r)
    requires |cb| + (h.base + |h.st| - r) < MAX_CIRCULAR_BUF
    ensures Recover(heap, r, cb).res != RecNoRoom
  {
    RecoverMeaning(h, rn, heap, r, cb);
    RecoverBytes(h, rn, heap, r, cb);
    var o := Recover(heap, r, cb);
    if o.res == RecNoRoom {
      var q := o.heap[0];
      assert q == heap[|heap| - |o.heap|];
      AtCutData(h, rn, q);
      BytesCut(h, r, o.rcvNxt, o.rcvNxt);
    }
  }

  lemma FedStep(h: Hist, rn: nat, cb0: seq<Byte>, r: Receiver, fed: set<Packet>, p: Packet, k: nat, now: int)
    requires Fed(h, rn, cb0, r, fed) && p !in fed && DataOk(h, rn, p)
    requires |cb0| + |h.st| < MAX_CIRCULAR_BUF
    ensures var o := RcvData(r, p, k, now);
            o.RcvOk? && Fed(h, rn, cb0, o.r, fed + {p})
  {
    if p.seqNo == r.rcvNxt {
      FedMatch(h, rn, cb0, r, fed, p, k, now);
    } else if p.seqNo > r.rcvNxt {
      FedMore(h, rn, cb0, r, fed, p, k, now);
    }
  }

  lemma PushKeeps(heap: seq<Packet>, p: Packet, k: nat, q: Packet)
    ensures q in PushPkt(heap, p, k) <==> q in heap || q == p
  {
    PushMultiset(heap, p, k);
    assert q in PushPkt(heap, p, k) <==> q in multiset(PushPkt(heap, p, k));
  }

  lemma FedMore(h: Hist, rn: nat, cb0: seq<Byte>, r: Receiver, fed: set<Packet>, p: Packet, k: nat, now: int)
    requires Fed(h, rn, cb0, r, fed) && p !in fed && DataOk(h, rn, p) && p.seqNo > r.rcvNxt
    ensures var o := RcvData(r, p, k, now);
            o.RcvOk? && Fed(h, rn, cb0, o.r, fed + {p})
  {
    RcvDataInv(h, rn, r, p, k, now);
    MoreUnfold(r, p, k, now);
    hide Bytes, IsSeg, PushPkt, RcvData, Clean, AllSent, Sorted;
    var o := RcvData(r, p, k, now);
    forall q
      ensures q in o.r.heap <==> q in r.heap || q == p
    {
      PushKeeps(r.heap, p, k, q);
    }
  }

  lemma MoreUnfold(r: Receiver, p: Packet, k: nat, now: int)
    requires p.seqNo > r.rcvNxt && RcvData(r, p, k, now).RcvOk?
    ensures var o := RcvData(r, p, k, now);
            o.r == r.(heap := PushPkt(r.heap, p, k), del := o.r.del)
  {
  }

  lemma FedMatch(h: Hist, rn: nat, cb0: seq<Byte>, r: Receiver, fed: set<Packet>, p: Packet, k: nat, now: int)
    requires Fed(h, rn, cb0, r, fed) && p !in fed && DataOk(h, rn, p) && p.seqNo == r.rcvNxt
    requires |cb0| + |h.st| < MAX_CIRCULAR_BUF
    ensures var o := RcvData(r, p, k, now);
            o.RcvOk? && Fed(h, rn, cb0, o.r, fed + {p})
  {
    RcvDataInv(h, rn, r, p, k, now);
    var o := RcvData(r, p, k, now);
    assert CbFits(r.cb, p.payload) by {
      BytesCut(h, h.base, r.rcvNxt, r.rcvNxt);
    }
    AfterMatch(h, rn, r, p);
    var cb1 := r.cb + p.payload;
    MatchDelivers(h, rn, r, p, k, now);
    hide Bytes, IsSeg, RcvData, Clean, Sorted, Recover, DelInv;
    BytesJoin(h, h.base, r.rcvNxt, o.r.rcvNxt);
    AssocBytes(cb0, Bytes(h, h.base, r.rcvNxt), Bytes(h, r.rcvNxt, o.r.rcvNxt));
    forall i | 0 <= i < |o.r.heap|
      ensures o.r.heap[i] in fed + {p}
    {
      assert o.r.heap[i] in r.heap;
    }
  }

  /** With room for the rest of the stream a match empties the heap up to the next gap. */
  lemma MatchDelivers(h: Hist, rn: nat, r: Receiver, p: Packet, k: nat, now: int)
    requires RInv(h, rn, r) && !r.recovering && Clean(h, rn, r.heap) && DataOk(h, rn, p) && p.seqNo == r.rcvNxt
    requires CbFits(r.cb, p.payload) && |r.cb| + (h.base + |h.st| - r.rcvNxt) < MAX_CIRCULAR_BUF
    ensures var o := RcvData(r, p, k, now);
            && o.RcvOk? && !o.r.recovering
            && (forall q :: q in o.r.heap ==> q in r.heap)
            && (forall q :: q in r.heap ==> q in o.r.heap || q.seqNo < o.r.rcvNxt)
  {
    AfterMatch(h, rn, r, p);
    var cb1 := r.cb + p.payload;
    CleanNeverAsserts(h, rn, r.heap, p.End(), cb1);
    RoomForStream(h, rn, cb1, r.heap, p.End());
    RecoveryInv(h, rn, r.(rcvNxt := p.End(), cb := cb1), now);
    RecoverMeaning(h, rn, r.heap, p.End(), cb1);
    hide Bytes, Recover, Strict, Sorted, DelInv, IsSeg, AllSent;
    var o := RcvData(r, p, k, now);
    SuffixKeeps(h, rn, r.heap, o.r.heap, o.r.rcvNxt);
  }

  lemma SuffixKeeps(h: Hist, rn: nat, heap: seq<Packet>, tl: seq<Packet>, r': nat)
    requires AllData(h, rn, heap) && |tl| <= |heap| && tl == heap[|heap| - |tl|..]
    requires forall i :: 0 <= i < |heap| - |tl| ==> heap[i].End() <= r'
    ensures forall q :: q in tl ==> q in heap
    ensures forall q :: q in heap ==> q in tl || q.seqNo < r'
  {
    var d := |heap| - |tl|;
    forall q | q in heap
      ensures q in tl || q.seqNo < r'
    {
      var i :| 0 <= i < |heap| && heap[i] == q;
      assert i >= d ==> tl[i - d] == q;
      assert DataOk(h, rn, heap[i]);
    }
  }

  lemma {:induction false} FeedFed(h: Hist, rn: nat, cb0: seq<Byte>, r: Receiver, fed: set<Packet>,
                                   ps: seq<Packet>, ks: seq<nat>, now: int)
    requires Fed(h, rn, cb0, r, fed) && |ks| == |ps|
    requires forall i :: 0 <= i < |ps| ==> DataOk(h, rn, ps[i]) && ps[i] !in fed
    requires forall i, j :: 0 <= i < j < |ps| ==> ps[i] != ps[j]
    requires |cb0| + |h.st| < MAX_CIRCULAR_BUF
    ensures var o := Feed(r, ps, ks, now);
            o.Some? && Fed(h, rn, cb0, o.value, fed + set p | p in ps)
    decreases |ps|
  {
    hide Fed, RcvData, DataOk;
    if ps == [] {
      assert fed + (set p | p in ps) == fed;
    } else {
      FedStep(h, rn, cb0, r, fed, ps[0], ks[0], now);
      FeedFed(h, rn, cb0, RcvData(r, ps[0], ks[0], now).r, fed + {ps[0]}, ps[1..], ks[1..], now);
      assert fed + {ps[0]} + (set p | p in ps[1..]) == fed + set p | p in ps;
    }
  }

  /** Reassembly does not depend on the order of arrival: for every cut of a stream into packets and
      every permutation of them, with room for the stream, everything is delivered in order,
      nothing is left over, and no assertion fails. */
  lemma OrderIndependent(segs: seq<Packet>, rn: nat, ps: seq<Packet>, ks: seq<nat>, r: Receiver, now: int)
    requires Segmentation(segs, rn, r.rcvNxt) && multiset(ps) == multiset(segs) && |ks| == |ps|
    requires r.heap == [] && !r.recovering && DelInv(r.del, r.rcvNxt) && r.del.st != DEL_IMMED
    requires |r.cb| + |StreamOf(segs)| < MAX_CIRCULAR_BUF
    ensures var o := Feed(r, ps, ks, now);
            && o.Some?
            && o.value.heap == [] && !o.value.recovering
            && o.value.rcvNxt == r.rcvNxt + |StreamOf(segs)|
            && o.value.cb == r.cb + StreamOf(segs)
  {
    hide Feed, RInv, DataOk, Segmentation;
    var h, fed := SegHist(segs, r.rcvNxt), set p | p in ps;
    PermutedData(segs, rn, r.rcvNxt, ps);
    EmptyBytes(h, h.base);
    NothingFed(segs, rn, r);
    FeedFed(h, rn, r.cb, r, {}, ps, ks, now);
    assert {} + fed == fed;
    forall i | 0 <= i < |segs|
      ensures segs[i] in fed
    {
      assert segs[i] in multiset(ps);
    }
    AllArrived(segs, rn, r.rcvNxt, r.cb, Feed(r, ps, ks, now).value, fed);
    assert Bytes(h, h.base, h.base + |h.st|) == h.st;
  }

  lemma NothingFed(segs: seq<Packet>, rn: nat, r: Receiver)
    requires r.heap == [] && !r.recovering && DelInv(r.del, r.rcvNxt) && r.del.st != DEL_IMMED
    ensures Fed(SegHist(segs, r.rcvNxt), rn, r.cb, r, {})
  {
    var h := SegHist(segs, r.rcvNxt);
    EmptyBytes(h, r.rcvNxt);
    hide Bytes, StreamOf, Ends, DelInv, IsSeg;
    assert AtCut(h, r.rcvNxt);
    assert r.cb + [] == r.cb;
  }

  lemma {:induction false} LastBoundary(segs: seq<Packet>, rn: nat, lo: nat, c: nat)
    requires Segmentation(segs, rn, lo) && (c == lo || c in Ends(segs))
    requires forall i :: 0 <= i < |segs| ==> segs[i].seqNo != c
    ensures c >= lo + |StreamOf(segs)|
  {
    if c < lo + |StreamOf(segs)| {
      BoundaryStartsSegment(segs, rn, lo, c);
    }
  }

  lemma HeapBelowEnd(h: Hist, rn: nat, heap: seq<Packet>)
    requires AllData(h, rn, heap)
    ensures heap != [] ==> heap[0].seqNo < h.base + |h.st|
  {
    assert heap != [] ==> DataOk(h, rn, heap[0]);
  }

  /** Once every segment has arrived nothing is missing and nothing is left over. */
  lemma AllArrived(segs: seq<Packet>, rn: nat, lo: nat, cb0: seq<Byte>, r: Receiver, fed: set<Packet>)
    requires Segmentation(segs, rn, lo) && Fed(SegHist(segs, lo), rn, cb0, r, fed)
    requires forall i :: 0 <= i < |segs| ==> segs[i] in fed
    ensures r.rcvNxt == lo + |StreamOf(segs)| && r.heap == []
  {
    var h := SegHist(segs, lo);
    forall i | 0 <= i < |segs|
      ensures segs[i].seqNo != r.rcvNxt
    {
      assert segs[i] in fed;
    }
    LastBoundary(segs, rn, lo, r.rcvNxt);
    HeapBelowEnd(h, rn, r.heap);
  }

  lemma PermutedData(segs: seq<Packet>, rn: nat, lo: nat, ps: seq<Packet>)
    requires Segmentation(segs, rn, lo) && multiset(ps) == multiset(segs)
    ensures forall i :: 0 <= i < |ps| ==> DataOk(SegHist(segs, lo), rn, ps[i])
    ensures forall i, j :: 0 <= i < j < |ps| ==> ps[i] != ps[j]
  {
    forall i | 0 <= i < |ps|
      ensures DataOk(SegHist(segs, lo), rn, ps[i])
    {
      assert ps[i] in multiset(segs);
      var j :| 0 <= j < |segs| && segs[j] == ps[i];
      SegmentationIsData(segs, rn, lo, j);
    }
    forall i, j | 0 <= i < j < |ps|
      ensures ps[i] != ps[j]
    {
      NoRepeats(segs, rn, lo, ps[i]);
      if ps[i] == ps[j] {
        TwiceInMultiset(ps, i, j);
      }
    }
  }

  lemma TwiceInMultiset(ps: seq<Packet>, i: nat, j: nat)
    requires i < j < |ps| && ps[i] == ps[j]
    ensures multiset(ps)[ps[i]] >= 2
  {
    assert ps == ps[..j] + [ps[j]] + ps[j + 1..];
    assert ps[..j][i] == ps[i];
    assert ps[i] in ps[..j];
  }

  lemma {:induction false} NoRepeats(segs: seq<Packet>, rn: nat, lo: nat, p: Packet)
    requires Segmentation(segs, rn, lo)
    ensures multiset(segs)[p] <= 1 && (p in multiset(segs) ==> lo <= p.seqNo)
    decreases |segs|
  {
    if segs != [] {
      NoRepeats(segs[1..], rn, segs[0].End(), p);
      assert segs == [segs[0]] + segs[1..];
    }
  }

  // ---------------------------------------------------------------- resumable recovery

  /** Recovery into a buffer that never fills: what it delivers and where it stops. */
  function RecoverAll(heap: seq<Packet>, r: nat): (bool, seq<Packet>, nat, seq<Byte>)
    decreases |heap|
  {
    if heap == [] || heap[0].seqNo > r then (true, heap, r, [])
    else if heap[0].seqNo < r then (false, heap, r, [])
    else
      var (ok, h', r', d) := RecoverAll(heap[1..], heap[0].End());
      (ok, h', r', heap[0].payload + d)
  }

  lemma {:induction false} RecoverIsPrefix(heap: seq<Packet>, r: nat, cb: seq<Byte>)
    ensures var o := Recover(heap, r, cb);
            var (ok, h1, r1, d1) := RecoverAll(heap, r);
            var (ok2, h2, r2, d2) := RecoverAll(o.heap, o.rcvNxt);
            && ok == ok2 && h1 == h2 && r1 == r2
            && cb + d1 == o.cb + d2
            && (o.res == RecDone ==> d2 == [] && h2 == o.heap && r2 == o.rcvNxt && ok2)
            && (o.res == RecAssert ==> !ok)
    decreases |heap|
  {
    if heap != [] && heap[0].seqNo == r && CbFits(cb, heap[0].payload) {
      RecoverIsPrefix(heap[1..], heap[0].End(), cb + heap[0].payload);
      var d := RecoverAll(heap[1..], heap[0].End()).3;
      AssocBytes(cb, heap[0].payload, d);
    }
  }

  /** Repeated runs on a stalled recovery; before each, the application reads some bytes. */
  function Rounds(heap: seq<Packet>, r: nat, cb: seq<Byte>, takes: seq<nat>): (seq<Byte>, Rec)
    decreases |takes|
  {
    if takes == [] then ([], Rec(RecNoRoom, heap, r, cb))
    else
      var n := Min(takes[0], |cb|);
      var o := Recover(heap, r, cb[n..]);
      if o.res != RecNoRoom then (cb[..n], o)
      else
        var (got, fin) := Rounds(o.heap, o.rcvNxt, o.cb, takes[1..]);
        (cb[..n] + got, fin)
  }

  /** A stalled recovery loses nothing: however it is stopped, read from and resumed, the bytes read, the
      bytes buffered and the bytes still to come add up to one run with enough room, and once it
      finishes it is in the state that run ends in. */
  lemma {:induction false} RecoveryIsResumable(heap: seq<Packet>, r: nat, cb: seq<Byte>, takes: seq<nat>)
    ensures var (got, fin) := Rounds(heap, r, cb, takes);
            var (ok, h1, r1, d1) := RecoverAll(heap, r);
            var (ok2, h2, r2, d2) := RecoverAll(fin.heap, fin.rcvNxt);
            && ok == ok2 && h1 == h2 && r1 == r2
            && got + (fin.cb + d2) == cb + d1
            && (fin.res == RecDone ==> fin.heap == h1 && fin.rcvNxt == r1 && got + fin.cb == cb + d1)
    decreases |takes|
  {
    var d1 := RecoverAll(heap, r).3;
    if takes == [] {
      assert [] + (cb + d1) == cb + d1;
    } else {
      var n := Min(takes[0], |cb|);
      var o := Recover(heap, r, cb[n..]);
      RecoverIsPrefix(heap, r, cb[n..]);
      var d := RecoverAll(o.heap, o.rcvNxt).3;
      ReadSplit(cb, n, d1);
      if o.res == RecNoRoom {
        RecoveryIsResumable(o.heap, o.rcvNxt, o.cb, takes[1..]);
        var (got, fin) := Rounds(o.heap, o.rcvNxt, o.cb, takes[1..]);
        var rest := RecoverAll(fin.heap, fin.rcvNxt).3;
        AssocBytes(cb[..n], got, fin.cb + rest);
        AssocBytes(cb[..n], got, fin.cb);
      } else if o.res == RecDone {
        assert o.cb + d == o.cb;
      }
    }
  }

  lemma ReadSplit(cb: seq<Byte>, n: nat, d: seq<Byte>)
    requires n <= |cb|
    ensures cb[..n] + (cb[n..] + d) == cb + d
  {
  }

  // ---------------------------------------------------------------- room

  /** The bytes read so far and the bytes buffered are the stream up to rcv_nxt. */
  ghost predicate Intact(h: Hist, got: seq<Byte>, r: Receiver) {
    got + r.cb == Bytes(h, h.base, r.rcvNxt)
  }

  /** A segment that is next in line keeps the delivered stream intact exactly when it fits the buffer;
      otherwise rcv_nxt moves past bytes that are stored nowhere. */
  lemma MatchKeepsStreamIff(h: Hist, rn: nat, r: Receiver, got: seq<Byte>, p: Packet, now: int)
    requires RInv(h, rn, r) && !r.recovering && Intact(h, got, r)
    requires DataOk(h, rn, p) && p.seqNo == r.rcvNxt
    requires MatchStep(r, p, now).RcvOk?
    ensures Intact(h, got, MatchStep(r, p, now).r) <==> CbFits(r.cb, p.payload)
  {
    MatchInv(h, rn, r, p, now);
    var r' := MatchStep(r, p, now).r;
    BytesCut(h, h.base, r.rcvNxt, r.rcvNxt);
    BytesCut(h, h.base, r'.rcvNxt, r'.rcvNxt);
    if CbFits(r.cb, p.payload) {
      hide Bytes;
      BytesJoin(h, h.base, r.rcvNxt, r'.rcvNxt);
      AssocBytes(got, r.cb, Bytes(h, r.rcvNxt, r'.rcvNxt));
    } else {
      BytesCut(h, p.End(), r'.rcvNxt, r'.rcvNxt);
    }
  }
}
