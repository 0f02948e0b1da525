/** What every sender operation keeps: tiling, conservation, Karn's rule, the window bound. */
module SenderProofs {
  import opened TouTypes
  import opened Congestion
  import opened History
  import opened SenderModel

  // ---------------------------------------------------------------- send

  /** The avoidance counter never outruns the window: with cnt passes left there is room for all but the
      last to be full. */
  predicate CntOk(cnt: int, sz: nat) {
    cnt >= 1 ==> sz > (cnt - 1) * SMSS
  }

  /** The number of passes is even, and each of them has something to send. */
  lemma AvoidanceCount(sz: nat)
    ensures CalNumCaXmit(sz) % 2 == 0
    ensures CntOk(CalNumCaXmit(sz), sz)
    ensures CalNumCaXmit(sz) >= 1 <==> sz > SMSS
    ensures CalNumCaXmit(sz) * SMSS + SMSS >= sz || CalNumCaXmit(sz) * SMSS + 2 * SMSS == sz + SMSS
  {
  }

  lemma SendOneNumbers(s: Sender, rn: nat, sz: nat, now: int)
    requires 0 < sz == SendSize(s) && 0 < |s.cb|
    ensures var (s1, p) := SendOne(s, rn, sz, now);
            && 0 < |p.payload| <= SMSS && p.seqNo == s.nxt && p.End() == s1.nxt
            && s1.nxt <= s.una + GetWnd(s.cc)
            && |p.payload| == Min(SMSS, Min(sz, |s.cb|)) && |s1.cb| == |s.cb| - |p.payload|
            && SendSize(s1) == sz - |p.payload|
            && s1.cc == s.cc && s1.una == s.una && s1.rto == s.rto && s1.rtt == s.rtt
            && p.payload + s1.cb == s.cb
  {
  }

  lemma CntStep(cnt: int, sz: nat, len: nat)
    requires CntOk(cnt, sz) && cnt >= 1 && len <= SMSS && len <= sz
    ensures CntOk(cnt - 1, sz - len)
  {
  }

  function Payloads(ps: seq<Packet>): seq<Byte> {
    if ps == [] then [] else ps[0].payload + Payloads(ps[1..])
  }

  /** Consecutive segments from lo on, none empty and none above SMSS. */
  predicate Consecutive(ps: seq<Packet>, lo: nat) {
    ps != [] ==> ps[0].seqNo == lo && 0 < |ps[0].payload| <= SMSS && Consecutive(ps[1..], ps[0].End())
  }

  lemma SendLoopUnfold(s: Sender, rn: nat, cnt: int, now: int)
    requires SendLoop(s, rn, cnt, now).1 != []
    ensures var (s1, p) := SendOne(s, rn, SendSize(s), now);
            var (s2, ps) := SendLoop(s1, rn, if s.cc.cc == CC_CA then cnt - 1 else cnt, now);
            SendLoop(s, rn, cnt, now) == (s2, [p] + ps)
    ensures 0 < |s.cb| && (if s.cc.cc == CC_CA then cnt >= 1 else SendSize(s) >= MIN_SEND_SIZE)
  {
  }

  /** Window safety of a whole send: it never passes snd_una + getwnd(), the segments are consecutive,
      non-empty and at most SMSS long, and the bytes sent are the bytes popped. */
  lemma {:induction false} SendLoopSafe(s: Sender, rn: nat, cnt: int, now: int)
    requires s.cc.cc == CC_CA ==> CntOk(cnt, SendSize(s))
    ensures var (s', ps) := SendLoop(s, rn, cnt, now);
            && s'.nxt <= Max(s.nxt, s.una + GetWnd(s.cc))
            && s'.cc == s.cc && s'.una == s.una && s'.rto == s.rto && s'.rtt == s.rtt
            && s'.nxt == s.nxt + |Payloads(ps)|
            && Consecutive(ps, s.nxt)
    decreases |s.cb|, Max(cnt, 0)
  {
    var sz := SendSize(s);
    if SendLoop(s, rn, cnt, now).1 != [] {
      SendLoopUnfold(s, rn, cnt, now);
      SendOneNumbers(s, rn, sz, now);
      var (s1, p) := SendOne(s, rn, sz, now);
      var cnt1 := if s.cc.cc == CC_CA then cnt - 1 else cnt;
      if s.cc.cc == CC_CA {
        CntStep(cnt, sz, |p.payload|);
      }
      SendLoopSafe(s1, rn, cnt1, now);
      var (s2, ps) := SendLoop(s1, rn, cnt1, now);
      assert ([p] + ps)[1..] == ps;
    }
  }

  lemma {:induction false} SendLoopPops(s: Sender, rn: nat, cnt: int, now: int)
    ensures var (s', ps) := SendLoop(s, rn, cnt, now);
            Payloads(ps) + s'.cb == s.cb
    decreases |s.cb|, Max(cnt, 0)
  {
    if SendLoop(s, rn, cnt, now).1 == [] {
      assert Payloads([]) + s.cb == s.cb;
    } else {
      SendLoopUnfold(s, rn, cnt, now);
      var (s1, p) := SendOne(s, rn, SendSize(s), now);
      var cnt1 := if s.cc.cc == CC_CA then cnt - 1 else cnt;
      SendLoopPops(s1, rn, cnt1, now);
      var (s2, ps) := SendLoop(s1, rn, cnt1, now);
      SendOnePops(s, rn, SendSize(s), now);
      PayloadsCons(p, ps);
      Assoc(p.payload, Payloads(ps), s2.cb);
    }
  }

  lemma SendOnePops(s: Sender, rn: nat, sz: nat, now: int)
    ensures var (s1, p) := SendOne(s, rn, sz, now);
            p.payload + s1.cb == s.cb
  {
  }

  lemma PayloadsCons(p: Packet, ps: seq<Packet>)
    ensures Payloads([p] + ps) == p.payload + Payloads(ps)
  {
    assert ([p] + ps)[1..] == ps;
  }

  lemma Assoc(a: seq<Byte>, b: seq<Byte>, c: seq<Byte>)
    ensures a + (b + c) == (a + b) + c
  {
  }

  /** The right edge of the send window: snd_una and the least of the congestion window, the advertised window and
      half of the buffer. */
  function RightEdge(s: Sender): nat {
    s.una + Min(Min(s.cc.cwnd, s.cc.awnd), MAX_CIRCULAR_BUF / 2)
  }

  lemma RightEdgeIs(s: Sender)
    ensures RightEdge(s) == s.una + GetWnd(s.cc)
    ensures SendSize(s) == Max(RightEdge(s) - s.nxt, 0)
  {
  }

  lemma SendSafe(s: Sender, rn: nat, now: int)
    ensures var (s', ps) := Send(s, rn, now);
            && s'.nxt <= Max(s.nxt, RightEdge(s))
            && s'.una == s.una && s'.cc == s.cc && s.nxt <= s'.nxt && s'.rto == s.rto && s'.rtt == s.rtt
            && Payloads(ps) + s'.cb == s.cb
            && s'.nxt == s.nxt + |Payloads(ps)|
            && Consecutive(ps, s.nxt)
  {
    AvoidanceCount(SendSize(s));
    SendLoopSafe(s, rn, CalNumCaXmit(SendSize(s)), now);
    SendLoopPops(s, rn, CalNumCaXmit(SendSize(s)), now);
  }

  /** Every segment is as long as SMSS, the window up to right and the queue allow. */
  predicate Maximal(ps: seq<Packet>, nxt: nat, right: nat, queue: nat) {
    ps != [] ==>
      && |ps[0].payload| == Min(SMSS, Min(right - nxt, queue))
      && Maximal(ps[1..], nxt + |ps[0].payload|, right, queue - |ps[0].payload|)
  }

  lemma {:induction false} SendLoopMaximal(s: Sender, rn: nat, cnt: int, now: int)
    requires s.cc.cc == CC_CA ==> CntOk(cnt, SendSize(s))
    ensures var (s', ps) := SendLoop(s, rn, cnt, now);
            && Maximal(ps, s.nxt, s.una + GetWnd(s.cc), |s.cb|)
            && (s'.cb == [] || if s.cc.cc == CC_CA then |ps| == Max(cnt, 0) else SendSize(s') < MIN_SEND_SIZE)
    decreases |s.cb|, Max(cnt, 0)
  {
    if SendLoop(s, rn, cnt, now).1 != [] {
      SendLoopUnfold(s, rn, cnt, now);
      hide Maximal, SendLoop;
      var sz := SendSize(s);
      SendOneNumbers(s, rn, sz, now);
      var (s1, p) := SendOne(s, rn, sz, now);
      var cnt1 := if s.cc.cc == CC_CA then cnt - 1 else cnt;
      if s.cc.cc == CC_CA {
        CntStep(cnt, sz, |p.payload|);
      }
      assert sz == s.una + GetWnd(s.cc) - s.nxt;
      hide SendOne, CntOk, SendSize, GetWnd;
      SendLoopMaximal(s1, rn, cnt1, now);
      var (s2, ps) := SendLoop(s1, rn, cnt1, now);
      MaximalCons(p, ps, s.nxt, s.una + GetWnd(s.cc), |s.cb|);
    }
  }

  lemma MaximalCons(p: Packet, ps: seq<Packet>, nxt: nat, right: nat, queue: nat)
    requires |p.payload| == Min(SMSS, Min(right - nxt, queue))
    requires Maximal(ps, nxt + |p.payload|, right, queue - |p.payload|)
    ensures Maximal([p] + ps, nxt, right, queue)
  {
    assert ([p] + ps)[1..] == ps;
  }

  /** send does not stop early: its segments are as long as they can be, and it ends with an empty queue, or in
      avoidance after an even number of segments within one SMSS of what the window allows, and otherwise with less
      than MIN_SEND_SIZE of window left. */
  lemma SendUsesWindow(s: Sender, rn: nat, now: int)
    ensures var (s', ps) := Send(s, rn, now);
            && Maximal(ps, s.nxt, RightEdge(s), |s.cb|)
            && (s'.cb == [] || if s.cc.cc == CC_CA then EvenPasses(|ps|, RightEdge(s) - s.nxt)
                               else RightEdge(s) - s'.nxt < 1400)
  {
    AvoidanceCount(SendSize(s));
    hide Send, Maximal, RightEdge, SendSize, CalNumCaXmit;
    RightEdgeIs(s);
    SendEnds(s, rn, now);
  }

  /** n is even, and n segments leave at most one SMSS of the free window, unless the last of them has to be short. */
  predicate EvenPasses(n: nat, free: int) {
    n % 2 == 0 && free <= (n + 1) * 1456 && (n > 0 ==> (n - 1) * 1456 < free)
  }

  lemma SendEnds(s: Sender, rn: nat, now: int)
    ensures var (s', ps) := Send(s, rn, now);
            && Maximal(ps, s.nxt, s.una + GetWnd(s.cc), |s.cb|)
            && (s'.cb == [] || if s.cc.cc == CC_CA then |ps| == CalNumCaXmit(SendSize(s))
                               else RightEdge(s) - s'.nxt < 1400)
  {
    AvoidanceCount(SendSize(s));
    SendLoopMaximal(s, rn, CalNumCaXmit(SendSize(s)), now);
    SendSafe(s, rn, now);
    hide Maximal, Send;
    RightEdgeIs(Send(s, rn, now).0);
  }

  /** With nothing in flight and bytes queued, send transmits exactly when the window is
      above one segment (avoidance) or at least MIN_SEND_SIZE (otherwise). */
  lemma SendsWhenIdleIff(s: Sender, rn: nat, now: int)
    requires s.una == s.nxt && s.cb != []
    ensures Send(s, rn, now).1 != [] <==>
            (if s.cc.cc == CC_CA then RightEdge(s) - s.una > 1456 else RightEdge(s) - s.una >= 1400)
  {
    AvoidanceCount(SendSize(s));
  }

  /** Bytes never wait in the buffer of an idle sender: after send, either the queue is empty or something
      is in flight. */
  ghost predicate NotStranded(s: Sender) {
    s.cb != [] ==> s.una < s.nxt
  }

  lemma SendLeavesNothingStranded(s: Sender, rn: nat, now: int)
    requires CongInv(s.cc) && s.cc.awnd > SMSS && s.una <= s.nxt
    ensures NotStranded(Send(s, rn, now).0)
  {
    SendSafe(s, rn, now);
    var (s', ps) := Send(s, rn, now);
    if s.una == s.nxt && s.cb != [] {
      SendsWhenIdleIff(s, rn, now);
      assert |Payloads(ps)| > 0;
    }
  }

  lemma OneMoreSegment(h: Hist, s: Sender, rn: nat, p: Packet)
    requires SInv(h, s, rn)
    requires 0 < |p.payload| <= SMSS && p == WirePacket(s.nxt, rn, p.payload) && p.payload <= s.cb
    ensures var h' := AddSent(h, [p]);
            && Ext(h, h', s.nxt) && IsSeg(h', s.nxt, p.End(), p.payload)
            && CutsOk(h', s.una, p.End())
            && s.cb[|p.payload|..] == Bytes(h, p.End(), h.base + |h.st|)
  {
    hide LogOk, KarnOk, Tiles;
    var h' := AddSent(h, [p]);
    assert Ends([p]) == {p.End()};
    assert |s.cb| == h.base + |h.st| - s.nxt;
    assert Bytes(h', s.nxt, p.End()) == Bytes(h, s.nxt, p.End());
    hide Bytes;
    BytesCut(h, s.nxt, p.End(), h.base + |h.st|);
  }

  lemma LogAfterNew(h: Hist, rn: nat, una: nat, nxt: nat, p: Packet)
    requires LogOk(h, rn, una, nxt) && nxt < p.End() && Ext(h, AddSent(h, [p]), nxt)
    requires DataOk(AddSent(h, [p]), rn, p)
    ensures LogOk(AddSent(h, [p]), rn, una, p.End())
    ensures forall q :: q in h.log ==> q.End() < p.End()
  {
    var h' := AddSent(h, [p]);
    hide Mangled, DataOk;
    forall q | q in h'.log
      ensures SentOk(h', rn, q) && q.End() <= p.End() && (h'.log[q] >= 2 ==> q.seqNo <= una || Mangled(h', rn, q))
    {
      if q != p {
        assert q in h.log;
        SentExt(h, h', nxt, rn, q);
      }
    }
  }

  /** Transmissions of other segments do not change how often this one went out. */
  lemma SameSends(h: Hist, h': Hist, rn: nat, lo: nat, n: Node, p: Packet)
    requires IsSeg(h, lo, n.pId, Bytes(h, lo, n.pId)) && h' == AddSent(h, [p]) && p.End() != n.pId
    ensures Sends(h', rn, lo, n) == Sends(h, rn, lo, n)
    ensures h'.log[Orig(h', rn, lo, n.pId)] == h.log[Orig(h, rn, lo, n.pId)]
  {
    assert Bytes(h', lo, n.pId) == Bytes(h, lo, n.pId);
    assert h'.log == h.log + multiset{p};
    hide Bytes;
    assert |Bytes(h, lo, n.pId)| == n.pId - lo by {
      BytesCut(h, lo, n.pId, n.pId);
    }
    assert Orig(h, rn, lo, n.pId) != p && NodePacket(n, rn) != p;
  }

  lemma KarnAfterNew(h: Hist, h': Hist, rn: nat, ts: seq<Node>, una: nat, nxt: nat, n: Node, p: Packet)
    requires Tiles(h, ts, una, nxt) && KarnOk(h, rn, una, ts)
    requires h' == AddSent(h, [p]) && p == Orig(h, rn, nxt, n.pId) && p.End() == n.pId && nxt < n.pId && n.xmit > 0
    requires forall q :: q in h.log ==> q.End() < p.End()
    ensures KarnOk(h', rn, una, ts + [n])
  {
    var ts' := ts + [n];
    hide Bytes, IsSeg, Tiles, Sends, NodePacket;
    forall i | 0 <= i < |ts'|
      ensures KarnAt(h', rn, From(ts', una, i), ts'[i], i)
    {
      if i < |ts| {
        TilesAt(h, ts, una, nxt, i);
        assert KarnAt(h, rn, From(ts, una, i), ts[i], i);
        SameSends(h, h', rn, From(ts, una, i), ts[i], p);
      } else {
        hide Orig, AddSent;
        LastEnd(h, ts, una, nxt);
        SentOnce(h, h', rn, nxt, n, p);
      }
    }
  }

  lemma SentOnce(h: Hist, h': Hist, rn: nat, lo: nat, n: Node, p: Packet)
    requires h' == AddSent(h, [p]) && p == Orig(h, rn, lo, n.pId) && p.End() == n.pId
    requires forall q :: q in h.log ==> q.End() < p.End()
    ensures Sends(h', rn, lo, n) == 1 && h'.log[Orig(h', rn, lo, n.pId)] >= 1
  {
    assert Orig(h', rn, lo, n.pId) == p;
    assert p !in h.log && NodePacket(n, rn) !in h.log;
    assert multiset([p]) == multiset{p};
  }

  /** The last node ends where the tiling does. */
  lemma {:induction false} LastEnd(h: Hist, ts: seq<Node>, lo: nat, hi: nat)
    requires Tiles(h, ts, lo, hi)
    ensures hi == if ts == [] then lo else ts[|ts| - 1].pId
    decreases |ts|
  {
    if ts != [] {
      LastEnd(h, ts[1..], ts[0].pId, hi);
    }
  }

  /** One more segment cut off the queue, transmitted and put under a timer. */
  lemma AppendSegment(h: Hist, s: Sender, rn: nat, n: Node, p: Packet)
    requires SInv(h, s, rn) && p == WirePacket(s.nxt, rn, n.payload)
    requires 0 < |n.payload| <= SMSS && n.payload <= s.cb
    requires n.pId == p.End() && n.xmit > 0
    ensures var h' := AddSent(h, [p]);
            var s1 := s.(nxt := p.End(), cb := s.cb[|n.payload|..], timers := HeapPush(s.timers, n));
            SInv(h', s1, rn) && DataOk(h', rn, p) && Ext(h, h', s.nxt)
  {
    hide LogOk, KarnOk, Tiles;
    var h', m := AddSent(h, [p]), CopyNode(n);
    OneMoreSegment(h, s, rn, p);
    hide IsSeg;
    LogAfterNew(h, rn, s.una, s.nxt, p);
    assert HeapPush(s.timers, n) == s.timers + [m] by {
      forall i | 0 <= i < |s.timers|
        ensures s.timers[i].pId <= n.pId
      {
        TilesAt(h, s.timers, s.una, s.nxt, i);
      }
      PushAtEnd(s.timers, n);
    }
    assert Bytes(h', s.nxt, p.End()) == n.payload by {
      SegBytes(h', s.nxt, p.End(), n.payload);
    }
    KarnAfterNew(h, h', rn, s.timers, s.una, s.nxt, m, p);
    TilesExt(h, h', s.nxt, s.timers, s.una, s.nxt);
    TilesSnoc(h', s.timers, s.una, s.nxt, m);
  }

  lemma SegBytes(h: Hist, lo: nat, hi: nat, pl: seq<Byte>)
    requires IsSeg(h, lo, hi, pl)
    ensures pl == Bytes(h, lo, hi) && |pl| == hi - lo
  {
  }

  lemma SendOneInv(h: Hist, s: Sender, rn: nat, sz: nat, now: int)
    requires SInv(h, s, rn) && 0 < sz == SendSize(s) && s.cb != [] && now > 0
    ensures var (s1, p) := SendOne(s, rn, sz, now);
            var h' := AddSent(h, [p]);
            SInv(h', s1, rn) && DataOk(h', rn, p) && Ext(h, h', s.nxt)
  {
    hide SInv, DataOk, Ext, AddSent, SendOne, HeapPush;
    var n := SendOneIs(s, rn, sz, now);
    AppendSegment(h, s, rn, n, SendOne(s, rn, sz, now).1);
  }

  lemma SendOneIs(s: Sender, rn: nat, sz: nat, now: int) returns (n: Node)
    requires 0 < sz && s.cb != []
    ensures n.xmit == now && 0 < |n.payload| <= SMSS && n.payload <= s.cb
    ensures var (s1, p) := SendOne(s, rn, sz, now);
            && p == WirePacket(s.nxt, rn, n.payload) && p.End() == n.pId
            && s1 == s.(nxt := p.End(), cb := s.cb[|n.payload|..], timers := HeapPush(s.timers, n))
  {
    hide HeapPush;
    var len := Min(if sz >= SMSS then SMSS else sz, |s.cb|);
    n := NodeRaw(s.nxt + len, s.cb[..len], now + s.rto, now);
  }

  lemma ExtTrans(h0: Hist, h1: Hist, h2: Hist, n0: nat, n1: nat)
    requires Ext(h0, h1, n0) && Ext(h1, h2, n1) && n0 <= n1
    ensures Ext(h0, h2, n0)
  {
  }

  /** A segment, and then the transmissions ps. */
  lemma OneThenMore(h: Hist, rn: nat, nxt: nat, p: Packet, ps: seq<Packet>, s: Sender)
    requires var h1 := AddSent(h, [p]);
             && Ext(h, h1, nxt) && DataOk(h1, rn, p) && nxt <= p.End()
             && Ext(h1, AddSent(h1, ps), p.End()) && SInv(AddSent(h1, ps), s, rn)
             && forall q :: q in ps ==> DataOk(AddSent(h1, ps), rn, q)
    ensures var h' := AddSent(h, [p] + ps);
            && SInv(h', s, rn) && Ext(h, h', nxt)
            && forall q :: q in [p] + ps ==> DataOk(h', rn, q)
  {
    hide SInv, AddSent, Ext, IsSeg;
    var h1 := AddSent(h, [p]);
    AddSentCons(h, p, ps);
    ExtTrans(h, h1, AddSent(h1, ps), nxt, p.End());
    SegExt(h1, AddSent(h1, ps), p.End(), p.seqNo, p.End(), p.payload);
  }

  lemma {:induction false} SendLoopInv(h: Hist, s: Sender, rn: nat, cnt: int, now: int)
    requires SInv(h, s, rn) && now > 0
    requires s.cc.cc == CC_CA ==> CntOk(cnt, SendSize(s))
    ensures var (s', ps) := SendLoop(s, rn, cnt, now);
            var h' := AddSent(h, ps);
            && SInv(h', s', rn) && Ext(h, h', s.nxt) && s.nxt <= s'.nxt
            && (forall p :: p in ps ==> DataOk(h', rn, p))
    decreases |s.cb|, Max(cnt, 0)
  {
    hide SInv, AddSent, Ext, DataOk;
    if SendLoop(s, rn, cnt, now).1 == [] {
      NothingAdded(h, s.nxt);
    } else {
      SendLoopUnfold(s, rn, cnt, now);
      var sz := SendSize(s);
      hide SendLoop;
      SendOneNumbers(s, rn, sz, now);
      SendOneInv(h, s, rn, sz, now);
      var (s1, p) := SendOne(s, rn, sz, now);
      var cnt1 := if s.cc.cc == CC_CA then cnt - 1 else cnt;
      if s.cc.cc == CC_CA {
        CntStep(cnt, sz, |p.payload|);
      }
      hide SendOne, CntOk;
      SendLoopInv(AddSent(h, [p]), s1, rn, cnt1, now);
      var (s2, ps) := SendLoop(s1, rn, cnt1, now);
      OneThenMore(h, rn, s.nxt, p, ps, s2);
    }
  }

  lemma NothingAdded(h: Hist, nxt: nat)
    ensures AddSent(h, []) == h && Ext(h, h, nxt)
  {
  }

  lemma SendInv(h: Hist, s: Sender, rn: nat, now: int)
    requires SInv(h, s, rn) && now > 0
    ensures var (s', ps) := Send(s, rn, now);
            var h' := AddSent(h, ps);
            && SInv(h', s', rn) && Ext(h, h', s.nxt) && s.nxt <= s'.nxt && s'.una == s.una && s'.cc == s.cc
            && (forall p :: p in ps ==> DataOk(h', rn, p))
  {
    AvoidanceCount(SendSize(s));
    SendLoopInv(h, s, rn, CalNumCaXmit(SendSize(s)), now);
    SendSafe(s, rn, now);
  }
}
