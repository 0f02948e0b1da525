/** Acknowledgement cleaning, retransmission and timer proofs of the sending half. */
module AckProofs {
  import opened TouTypes
  import opened Congestion
  import opened History
  import opened SenderModel
  import opened SenderProofs

  lemma SInvCong(h: Hist, s: Sender, rn: nat)
    requires SInv(h, s, rn)
    ensures CongInv(s.cc) && s.una <= s.nxt
  {
  }

  lemma SInvCuts(h: Hist, s: Sender, rn: nat)
    requires SInv(h, s, rn)
    ensures CutsOk(h, s.una, s.nxt)
  {
  }

  // ---------------------------------------------------------------- ack cleaning

  ghost predicate HeapOrdered(ts: seq<Node>) {
    forall i, j :: 0 <= i < j < |ts| ==> ts[i].pId <= ts[j].pId
  }

  lemma {:induction false} ClearTimerMeaning(ts: seq<Node>, una: nat)
    requires HeapOrdered(ts)
    ensures var r := ClearTimer(ts, una);
            && |r| <= |ts| && r == ts[|ts| - |r|..]
            && (forall i :: 0 <= i < |r| ==> r[i].pId > una)
            && (forall i :: 0 <= i < |ts| - |r| ==> ts[i].pId <= una)
            && (|r| == |ts| <==> ts == [] || ts[0].pId > una)
    decreases |ts|
  {
    if ts != [] && ts[0].pId <= una {
      ClearTimerMeaning(ts[1..], una);
    }
  }

  ghost predicate TwoNodesAt(ts: seq<Node>, una: nat) {
    exists i :: 0 <= i < |ts| - 1 && ts[i].pId == una && ts[i + 1].pId == una
  }

  lemma TwoNodesBehind(ts: seq<Node>, una: nat)
    requires ts != [] && ts[0].pId != una
    ensures TwoNodesAt(ts, una) <==> TwoNodesAt(ts[1..], una)
  {
    if TwoNodesAt(ts, una) {
      var i :| 0 <= i < |ts| - 1 && ts[i].pId == una && ts[i + 1].pId == una;
      assert ts[1..][i - 1].pId == una && ts[1..][i - 1 + 1].pId == una;
    }
    if TwoNodesAt(ts[1..], una) {
      var i :| 0 <= i < |ts[1..]| - 1 && ts[1..][i].pId == una && ts[1..][i + 1].pId == una;
      assert ts[i + 1].pId == una && ts[i + 1 + 1].pId == una;
    }
  }

  /** The ack-path loop, which stops on equality, leaves what the timer thread's loop leaves
      exactly when no two nodes end at the acknowledged number. */
  lemma {:induction false} CleaningsAgreeIff(ts: seq<Node>, una: nat)
    requires HeapOrdered(ts)
    ensures ClearByAck(ts, una).0 == ClearTimer(ts, una) <==> !TwoNodesAt(ts, una)
    decreases |ts|
  {
    if ts == [] || ts[0].pId > una {
    } else if ts[0].pId < una {
      CleaningsAgreeIff(ts[1..], una);
      TwoNodesBehind(ts, una);
    } else {
      ClearTimerMeaning(ts[1..], una);
      if |ts| > 1 && ts[1].pId == una {
        assert ts[0].pId == una && ts[0 + 1].pId == una;
      } else if |ts| > 1 {
        assert forall i :: 1 <= i < |ts| ==> ts[i].pId > una;
      }
    }
  }

  /** On a tiled heap an ack at a boundary removes exactly the acknowledged segments, on both paths. */
  lemma {:induction false} TilesClear(h: Hist, ts: seq<Node>, lo: nat, hi: nat, c: nat)
    requires Tiles(h, ts, lo, hi) && c in h.cuts && lo <= c <= hi
    ensures var r := ClearTimer(ts, c);
            && ClearByAck(ts, c).0 == r
            && |r| <= |ts| && r == ts[|ts| - |r|..] && (|r| == |ts| <==> lo == c)
            && Tiles(h, r, c, hi)
    ensures var smp := ClearByAck(ts, c).1;
            if lo == c then smp == None else smp.Some? && smp.value in ts && smp.value.pId == c
    ensures var k := |ts| - |ClearTimer(ts, c)|;
            k > 0 ==> ts[k - 1].pId == c
    decreases |ts|
  {
    hide IsSeg, Bytes, CStr;
    if ts != [] {
      TilesCut(h, ts, lo, hi, c);
      if lo < c {
        TilesClear(h, ts[1..], ts[0].pId, hi, c);
        if |ts| > 1 {
          TilesCut(h, ts[1..], ts[0].pId, hi, c);
        }
      }
    }
  }

  lemma TilesCut(h: Hist, ts: seq<Node>, lo: nat, hi: nat, c: nat)
    requires Tiles(h, ts, lo, hi) && c in h.cuts && ts != []
    ensures lo < ts[0].pId && (c <= lo || ts[0].pId <= c) && Tiles(h, ts[1..], ts[0].pId, hi)
  {
  }

  lemma KarnSuffix(h: Hist, rn: nat, una: nat, ts: seq<Node>, k: nat)
    requires KarnOk(h, rn, una, ts) && k <= |ts|
    ensures KarnOk(h, rn, if k == 0 then una else ts[k - 1].pId, ts[k..])
  {
    hide Sends, Orig;
    var una' := if k == 0 then una else ts[k - 1].pId;
    forall i | 0 <= i < |ts[k..]|
      ensures KarnAt(h, rn, From(ts[k..], una', i), ts[k..][i], i)
    {
      assert KarnAt(h, rn, From(ts, una, k + i), ts[k + i], k + i);
    }
  }

  lemma AdvanceInv(h: Hist, s: Sender, rn: nat, ack: nat, now: int)
    requires SInv(h, s, rn) && ack in h.cuts && s.una < ack
    ensures var s' := Advance(s, ack, now);
            SInv(h, s', rn) && s'.una == ack && s'.nxt == s.nxt && s'.cb == s.cb && s'.cc == s.cc
  {
    hide IsSeg, ClearByAck, CalRto, LogOk, KarnOk, Tiles;
    AdvanceTimers(h, rn, s.timers, s.una, s.nxt, ack);
    LogUna(h, rn, s.una, ack, s.nxt);
  }

  lemma AdvanceTimers(h: Hist, rn: nat, ts: seq<Node>, una: nat, nxt: nat, ack: nat)
    requires Tiles(h, ts, una, nxt) && KarnOk(h, rn, una, ts) && ack in h.cuts && una < ack <= nxt
    ensures var r := ClearByAck(ts, ack).0;
            Tiles(h, r, ack, nxt) && KarnOk(h, rn, ack, r)
  {
    hide Tiles, KarnOk, ClearTimer, ClearByAck;
    TilesClear(h, ts, una, nxt, ack);
    KarnSuffix(h, rn, una, ts, |ts| - |ClearTimer(ts, ack)|);
  }

  lemma LogUna(h: Hist, rn: nat, una: nat, una': nat, nxt: nat)
    requires LogOk(h, rn, una, nxt) && una <= una'
    ensures LogOk(h, rn, una', nxt)
  {
  }

  lemma NothingToClear(h: Hist, s: Sender, rn: nat)
    requires SInv(h, s, rn)
    ensures ClearTimer(s.timers, s.una) == s.timers
  {
    TilesClear(h, s.timers, s.una, s.nxt, s.una);
  }

  /** Karn's rule (section 3 of RFC 6298): whenever an ack gives the estimator a sample, the sample is the
      node of a segment that ends at that ack and was transmitted exactly once. */
  lemma SamplesAreUnambiguous(h: Hist, s: Sender, rn: nat, ack: nat)
    requires SInv(h, s, rn) && ack in h.cuts && s.una < ack
    requires var n := ClearByAck(s.timers, ack).1; n.Some? && n.value.xmit >= 0
    ensures var n := ClearByAck(s.timers, ack).1.value;
            exists i :: 0 <= i < |s.timers| && s.timers[i] == n && n.pId == ack && n.xmit > 0
                        && Sends(h, rn, From(s.timers, s.una, i), n) == 1
  {
    TilesClear(h, s.timers, s.una, s.nxt, ack);
    hide Tiles, LogOk, IsSeg, CutsOk, ClearByAck, Sends;
    var n := ClearByAck(s.timers, ack).1.value;
    var i :| 0 <= i < |s.timers| && s.timers[i] == n;
    assert KarnAt(h, rn, From(s.timers, s.una, i), s.timers[i], i);
  }

  /** The smoothed estimate stays between 8 ms and the larger of its old value and the sample, and each sample
      leaves an eighth of the old error, up to the rounding of two divisions. */
  lemma CalRtoRange(rto: nat, rtt: nat, n: Node, recvT: int)
    requires n.xmit >= 0
    ensures var (rto', rtt') := CalRto(rto, rtt, Some(n), recvT);
            var cur := Max(recvT - n.xmit, 10);
            && 8 <= rtt' <= Max(rtt, cur) && rto' == 2 * rtt'
            && rtt - cur - 14 <= 8 * (rtt' - cur) <= rtt - cur
  {
  }

  // ---------------------------------------------------------------- retransmission

  /** Retransmitting the front node re-sends the segment at snd_una, or what is left of it, and marks it. */
  lemma FrontResent(h: Hist, s: Sender, rn: nat, ms: int)
    requires SInv(h, s, rn) && s.timers != []
    ensures var p := NodePacket(s.timers[0], rn);
            var n := NodeRaw(s.timers[0].pId, s.timers[0].payload, ms, -1);
            var h' := AddSent(h, [p]);
            && HeapPush(s.timers[1..], n) == [n] + s.timers[1..]
            && SInv(h', s.(timers := [n] + s.timers[1..]), rn) && Ext(h, h', s.nxt)
            && p.End() <= s.nxt && SentOk(h', rn, p)
            && (if FrontCut(s) then Mangled(h', rn, p) else DataOk(h', rn, p) && p.seqNo == s.una)
  {
    hide LogOk, KarnOk, Tiles, IsSeg, HeapPush, DataOk, Mangled, SentOk;
    var ts := s.timers;
    var p := NodePacket(ts[0], rn);
    var n := NodeRaw(ts[0].pId, ts[0].payload, ms, -1);
    var h' := AddSent(h, [p]);
    var ts' := [n] + ts[1..];
    FrontPushed(h, s, rn, n);
    SameCuts(h, s, rn);
    assert SentOk(h, rn, p) by {
      SentIs(h, rn, p);
    }
    SentExt(h, h', s.nxt, rn, p);
    TilesExt(h, h', s.nxt, ts, s.una, s.nxt);
    TilesSame(h', ts, ts', s.una, s.nxt);
    LogAfterRepeat(h, rn, s.una, s.nxt, p);
    KarnAfterRepeat(h, rn, ts, s.una, s.nxt, n);
  }

  lemma SentIs(h: Hist, rn: nat, p: Packet)
    ensures SentOk(h, rn, p) <==> DataOk(h, rn, p) || Mangled(h, rn, p)
  {
  }

  lemma FrontPushed(h: Hist, s: Sender, rn: nat, n: Node)
    requires SInv(h, s, rn) && s.timers != [] && n.pId == s.timers[0].pId && n.payload == s.timers[0].payload
    ensures HeapPush(s.timers[1..], n) == [n] + s.timers[1..]
  {
    var ts := s.timers;
    hide LogOk, KarnOk;
    TilesAt(h, ts, s.una, s.nxt, 0);
    CStrTwice(Bytes(h, s.una, ts[0].pId));
    if |ts| > 1 {
      TilesIncreasing(h, ts, s.una, s.nxt, 0, 1);
    }
    PushAtFront(ts[1..], n);
  }

  lemma SameCuts(h: Hist, s: Sender, rn: nat)
    requires SInv(h, s, rn) && s.timers != []
    ensures var p := NodePacket(s.timers[0], rn);
            && AddSent(h, [p]).cuts == h.cuts && Ext(h, AddSent(h, [p]), s.nxt)
            && p.End() == s.timers[0].pId && p.End() <= s.nxt
            && (if FrontCut(s) then Mangled(h, rn, p) else DataOk(h, rn, p) && p.seqNo == s.una)
  {
    hide LogOk, KarnOk;
    TilesAt(h, s.timers, s.una, s.nxt, 0);
    NodeSent(h, rn, s.una, s.timers[0]);
    var p := NodePacket(s.timers[0], rn);
    assert Ends([p]) == {p.End()};
  }

  lemma KarnAfterRepeat(h: Hist, rn: nat, ts: seq<Node>, una: nat, nxt: nat, n: Node)
    requires Tiles(h, ts, una, nxt) && KarnOk(h, rn, una, ts) && ts != []
    requires n.pId == ts[0].pId && n.payload == ts[0].payload && n.xmit == -1
    ensures KarnOk(AddSent(h, [NodePacket(ts[0], rn)]), rn, una, [n] + ts[1..])
  {
    var p, ts' := NodePacket(ts[0], rn), [n] + ts[1..];
    var h' := AddSent(h, [p]);
    SentAgain(h, rn, una, ts[0], n);
    hide IsSeg, Sends, Bytes, Tiles, AddSent, NodePacket;
    forall i | 0 <= i < |ts'|
      ensures KarnAt(h', rn, From(ts', una, i), ts'[i], i)
    {
      assert KarnAt(h, rn, From(ts, una, i), ts[i], i);
      if i > 0 {
        TilesAt(h, ts, una, nxt, i);
        TilesIncreasing(h, ts, una, nxt, 0, i);
        assert p.End() == ts[0].pId by {
          NodeEnd(ts[0], rn);
        }
        SameSends(h, h', rn, From(ts, una, i), ts[i], p);
      }
    }
  }

  lemma NodeEnd(n: Node, rn: nat)
    ensures NodePacket(n, rn).End() == n.pId
  {
  }

  /** A retransmission of the segment counts, whether the node still holds all of it or not. */
  lemma SentAgain(h: Hist, rn: nat, lo: nat, n: Node, m: Node)
    requires n.pId == m.pId && n.payload == m.payload
    ensures Sends(AddSent(h, [NodePacket(n, rn)]), rn, lo, m) == Sends(h, rn, lo, n) + 1
    ensures AddSent(h, [NodePacket(n, rn)]).log[Orig(AddSent(h, [NodePacket(n, rn)]), rn, lo, m.pId)]
            >= h.log[Orig(h, rn, lo, n.pId)]
  {
    var p := NodePacket(n, rn);
    assert p == NodePacket(m, rn) && multiset([p]) == multiset{p};
    assert Orig(AddSent(h, [p]), rn, lo, m.pId) == Orig(h, rn, lo, n.pId);
  }

  lemma LogAfterRepeat(h: Hist, rn: nat, una: nat, nxt: nat, p: Packet)
    requires LogOk(h, rn, una, nxt) && SentOk(h, rn, p) && p.End() <= nxt && Ext(h, AddSent(h, [p]), nxt)
    requires Mangled(h, rn, p) || p.seqNo == una
    ensures LogOk(AddSent(h, [p]), rn, una, nxt)
  {
    var h' := AddSent(h, [p]);
    hide DataOk, Mangled;
    forall q | q in h'.log
      ensures SentOk(h', rn, q) && q.End() <= nxt && (h'.log[q] >= 2 ==> q.seqNo <= una || Mangled(h', rn, q))
    {
      if q != p {
        assert q in h.log;
      }
      SentExt(h, h', nxt, rn, q);
    }
  }

  ghost predicate SameSegments(ts: seq<Node>, ts': seq<Node>) {
    |ts| == |ts'| && forall i :: 0 <= i < |ts| ==> ts'[i].pId == ts[i].pId && ts'[i].payload == ts[i].payload
  }

  ghost predicate SameButMs(ts: seq<Node>, ts': seq<Node>) {
    SameSegments(ts, ts') && forall i :: 0 <= i < |ts| ==> ts'[i].xmit == ts[i].xmit
  }

  lemma {:induction false} TilesSame(h: Hist, ts: seq<Node>, ts': seq<Node>, lo: nat, hi: nat)
    requires Tiles(h, ts, lo, hi) && SameSegments(ts, ts')
    ensures Tiles(h, ts', lo, hi)
    decreases |ts|
  {
    if ts != [] {
      TilesSame(h, ts[1..], ts'[1..], ts[0].pId, hi);
    }
  }

  /** The assertion in postpone_timer fails exactly if some node behind th has been retransmitted. */
  lemma {:induction false} PostponeAssertsIff(ts: seq<Node>, th: nat, rto: nat)
    ensures Postpone(ts, th, rto).None? <==> exists i :: 0 <= i < |ts| && ts[i].pId > th && ts[i].xmit <= 0
    decreases |ts|
  {
    if ts != [] {
      PostponeAssertsIff(ts[1..], th, rto);
      if i :| 0 <= i < |ts| && ts[i].pId > th && ts[i].xmit <= 0 {
        assert i > 0 ==> ts[1..][i - 1] == ts[i];
      }
      if i :| 0 <= i < |ts[1..]| && ts[1..][i].pId > th && ts[1..][i].xmit <= 0 {
        assert ts[i + 1] == ts[1..][i];
      }
    }
  }

  /** postpone_timer throws away the nodes before th. */
  lemma {:induction false} PostponeDrops(ts: seq<Node>, th: nat, rto: nat, k: nat)
    requires k <= |ts| && forall i :: 0 <= i < k ==> ts[i].pId < th
    ensures Postpone(ts, th, rto) == Postpone(ts[k..], th, rto)
    decreases k
  {
    if k > 0 {
      PostponeDrops(ts[1..], th, rto, k - 1);
      assert ts[1..][k - 1..] == ts[k..];
    }
  }

  /** postpone_timer re-arms every node behind th from its own send time and leaves th's alone. */
  lemma {:induction false} PostponeMeaning(ts: seq<Node>, th: nat, rto: nat)
    requires forall i :: 0 <= i < |ts| ==> CStr(ts[i].payload) == ts[i].payload
    requires forall i :: 0 <= i < |ts| ==> ts[i].pId >= th && (ts[i].pId > th ==> ts[i].xmit > 0)
    ensures var r := Postpone(ts, th, rto);
            && r.Some? && SameButMs(ts, r.value)
            && forall i :: 0 <= i < |ts| ==>
                 r.value[i].ms == if ts[i].pId == th then ts[i].ms else ts[i].xmit + rto
    decreases |ts|
  {
    if ts != [] {
      PostponeMeaning(ts[1..], th, rto);
      var r, rest := Postpone(ts, th, rto).value, Postpone(ts[1..], th, rto).value;
      assert r[1..] == rest;
      forall i | 1 <= i < |ts|
        ensures r[i] == rest[i - 1] && ts[i] == ts[1..][i - 1]
      {
      }
    }
  }

  /** ... and on the sender's own heap its assertion holds and only the front node keeps its deadline. */
  lemma PostponeSteps(h: Hist, s: Sender, rn: nat, rto: nat)
    requires SInv(h, s, rn) && s.timers != []
    ensures var r := Postpone(s.timers, s.timers[0].pId, rto);
            && r.Some? && SameButMs(s.timers, r.value)
            && forall i :: 0 <= i < |s.timers| ==>
                 r.value[i].ms == if i == 0 then s.timers[i].ms else s.timers[i].xmit + rto
  {
    hide LogOk, IsSeg, Postpone;
    var ts := s.timers;
    forall i | 0 <= i < |ts|
      ensures CStr(ts[i].payload) == ts[i].payload
              && ts[i].pId >= ts[0].pId && (ts[i].pId > ts[0].pId ==> ts[i].xmit > 0)
              && (ts[i].pId == ts[0].pId <==> i == 0)
    {
      TilesAt(h, ts, s.una, s.nxt, i);
      CStrTwice(Bytes(h, From(ts, s.una, i), ts[i].pId));
      if i > 0 {
        TilesIncreasing(h, ts, s.una, s.nxt, 0, i);
      }
    }
    PostponeMeaning(ts, ts[0].pId, rto);
  }

  lemma PostponeInv(h: Hist, s: Sender, rn: nat, rto: nat)
    requires SInv(h, s, rn) && s.timers != []
    ensures var r := Postpone(s.timers, s.timers[0].pId, rto);
            && r.Some? && SameButMs(s.timers, r.value)
            && SInv(h, s.(timers := r.value), rn)
            && r.value[0].ms == s.timers[0].ms
  {
    hide LogOk, IsSeg, Postpone, Tiles, KarnOk;
    PostponeSteps(h, s, rn, rto);
    var ts' := Postpone(s.timers, s.timers[0].pId, rto).value;
    TilesSame(h, s.timers, ts', s.una, s.nxt);
    KarnSameButMs(h, rn, s.una, s.timers, ts');
  }

  lemma KarnSameButMs(h: Hist, rn: nat, una: nat, ts: seq<Node>, ts': seq<Node>)
    requires KarnOk(h, rn, una, ts) && SameButMs(ts, ts')
    ensures KarnOk(h, rn, una, ts')
  {
    hide Sends, Orig;
    forall i | 0 <= i < |ts'|
      ensures KarnAt(h, rn, From(ts', una, i), ts'[i], i)
    {
      assert KarnAt(h, rn, From(ts, una, i), ts[i], i);
      SendsSame(h, rn, From(ts, una, i), ts[i], ts'[i]);
    }
  }

  lemma SendsSame(h: Hist, rn: nat, lo: nat, n: Node, m: Node)
    requires n.pId == m.pId && n.payload == m.payload
    ensures Sends(h, rn, lo, m) == Sends(h, rn, lo, n)
  {
    assert NodePacket(n, rn) == NodePacket(m, rn);
    hide NodePacket, Orig;
  }

  lemma WindowOnly(h: Hist, s: Sender, rn: nat, cc: Cong)
    requires SInv(h, s, rn) && CongInv(cc)
    ensures SInv(h, s.(cc := cc), rn)
  {
  }

  /** A timer pass never aborts; it is idle, or re-sends the front node: exactly the segment at snd_una, unless
      the node was cut short. */
  lemma TimeOutInv(h: Hist, s: Sender, rn: nat, now: int)
    requires SInv(h, s, rn)
    ensures var r := TimeOut(s, rn, now);
            && r.Sent?
            && (if s.timers == [] || s.timers[0].ms >= now then r == Sent(s, [])
                else
                  var p := NodePacket(s.timers[0], rn);
                  r.pkts == [p] && if FrontCut(s) then Mangled(AddSent(h, [p]), rn, p)
                                   else DataOk(AddSent(h, [p]), rn, p) && p.seqNo == s.una)
            && SInv(AddSent(h, r.pkts), r.s, rn) && Ext(h, AddSent(h, r.pkts), s.nxt)
            && r.s.una == s.una && r.s.nxt == s.nxt && r.s.cb == s.cb && r.s.cc.awnd == s.cc.awnd
            && (forall p :: p in r.pkts ==> SentOk(AddSent(h, r.pkts), rn, p))
  {
    hide LogOk, KarnOk, IsSeg, Tiles, CutsOk, Postpone, ClearTimer, HeapPush, DataOk, Mangled;
    NothingToClear(h, s, rn);
    assert AddSent(h, []) == h;
    if s.timers != [] && s.timers[0].ms < now {
      var n := NodeRaw(s.timers[0].pId, s.timers[0].payload, 2 * s.rto + now, -1);
      FrontResent(h, s, rn, 2 * s.rto + now);
      var h' := AddSent(h, [NodePacket(s.timers[0], rn)]);
      var s1 := s.(timers := [n] + s.timers[1..]);
      PostponeInv(h', s1, rn, 2 * s.rto);
      CcStepInv(s.cc, TimedOut);
      var r := TimeOut(s, rn, now);
      WindowOnly(h', s1.(timers := r.s.timers), rn, SetTWnd(s.cc));
      assert r.s == s1.(timers := r.s.timers).(cc := SetTWnd(s.cc));
    }
  }

  lemma TimeOutKeeps(s: Sender, rn: nat, now: int)
    ensures var r := TimeOut(s, rn, now);
            r.Sent? ==> r.s.rto == s.rto && r.s.rtt == s.rtt && r.s.cc == if r.pkts == [] then s.cc else SetTWnd(s.cc)
  {
    hide ClearTimer, HeapPush, Postpone, SetTWnd;
  }

  /** A scan is a timeout exactly if the deadline of the front node has passed. A timeout restarts the window from one
      segment and leaves the round-trip estimate alone; any other scan changes nothing. */
  lemma TimeOutDue(h: Hist, s: Sender, rn: nat, now: int)
    requires SInv(h, s, rn)
    ensures !Traps(s.cc)
    ensures var r := TimeOut(s, rn, now);
            r.Sent? && if s.timers != [] && s.timers[0].ms < now
                       then r.pkts != [] && r.s.cc == CcNext(s.cc, TimedOut) && r.s.rto == s.rto && r.s.rtt == s.rtt
                       else r == Sent(s, [])
  {
    SInvCong(h, s, rn);
    CcStepInv(s.cc, TimedOut);
    hide SInv, TimeOut, SetTWnd, AddSent, Ext, DataOk, Mangled, SentOk, FrontCut, NodePacket, CongInv;
    TimeOutInv(h, s, rn, now);
    TimeOutKeeps(s, rn, now);
  }

  /** After a timeout the front node waits two timeouts from now; fewer than eight nodes in flight wait two
      timeouts from their own transmission. */
  lemma TimeOutDeadlines(h: Hist, s: Sender, rn: nat, now: int)
    requires SInv(h, s, rn) && s.timers != [] && s.timers[0].ms < now
    ensures var r := TimeOut(s, rn, now);
            && r.Sent? && SameSegments(s.timers, r.s.timers)
            && r.s.timers[0].ms == now + 2 * s.rto && r.s.timers[0].xmit == -1
            && (forall i :: 1 <= i < |s.timers| ==>
                  && r.s.timers[i].xmit == s.timers[i].xmit
                  && r.s.timers[i].ms == if |s.timers| < 8 then s.timers[i].xmit + 2 * s.rto else s.timers[i].ms)
  {
    hide LogOk, KarnOk, IsSeg, Tiles, CutsOk, Postpone, ClearTimer, HeapPush;
    hide DataOk, Mangled, SentOk, Ext, AddSent, SetTWnd;
    NothingToClear(h, s, rn);
    var n := NodeRaw(s.timers[0].pId, s.timers[0].payload, 2 * s.rto + now, -1);
    FrontResent(h, s, rn, 2 * s.rto + now);
    var h' := AddSent(h, [NodePacket(s.timers[0], rn)]);
    PostponeSteps(h', s.(timers := [n] + s.timers[1..]), rn, 2 * s.rto);
  }

  lemma FastFront(s: Sender, rn: nat, now: int)
    requires s.timers != [] ==> Start(s.timers[0]) >= s.una
    ensures var ts := s.timers;
            FastRexmit(ts, s.una, rn, s.rto, now) ==
            if ts == [] then Some(([], []))
            else if FrontCut(s) then None
            else Some((HeapPush(ts[1..], NodeRaw(ts[0].pId, ts[0].payload, now + s.rto, -1)), [NodePacket(ts[0], rn)]))
  {
    hide HeapPush;
  }

  /** A fast retransmit exits exactly if the front node was cut short; otherwise it re-sends exactly the
      segment at snd_una, whose node loses its send time and waits one timeout from now. */
  lemma FastRexmitInv(h: Hist, s: Sender, rn: nat, now: int)
    requires SInv(h, s, rn)
    ensures var r := FastRexmit(s.timers, s.una, rn, s.rto, now);
            && (r.None? <==> FrontCut(s))
            && (r.Some? ==>
                  && r.value.1 == (if s.timers == [] then [] else [NodePacket(s.timers[0], rn)])
                  && r.value.0 == (if s.timers == [] then [] else
                                     [NodeRaw(s.timers[0].pId, s.timers[0].payload, now + s.rto, -1)] + s.timers[1..])
                  && SInv(AddSent(h, r.value.1), s.(timers := r.value.0), rn)
                  && Ext(h, AddSent(h, r.value.1), s.nxt)
                  && (forall p :: p in r.value.1 ==> p.seqNo == s.una && DataOk(AddSent(h, r.value.1), rn, p)))
  {
    hide SInv, Ext, AddSent, Mangled, DataOk, SentOk, HeapPush, Start;
    NothingAdded(h, s.nxt);
    if s.timers == [] {
      FastFront(s, rn, now);
      assert s.(timers := []) == s;
    } else {
      FrontStart(h, s, rn);
      FastFront(s, rn, now);
      hide FrontCut, FastRexmit;
      FrontResent(h, s, rn, now + s.rto);
    }
  }

  /** A fast retransmit on any heap: nodes that start below pid are thrown away; the first other node is re-sent and
      re-armed if it starts at pid, and ends the process if it starts later. */
  lemma {:induction false} FastRexmitMeaning(ts: seq<Node>, pid: nat, rn: nat, rto: nat, now: int) returns (k: nat)
    ensures k <= |ts| && (forall i :: 0 <= i < k ==> Start(ts[i]) < pid) && (k < |ts| ==> pid <= Start(ts[k]))
    ensures FastRexmit(ts, pid, rn, rto, now) ==
            if k == |ts| then Some(([], []))
            else if pid < Start(ts[k]) then None
            else
              var n := NodeRaw(ts[k].pId, ts[k].payload, now + rto, -1);
              Some((HeapPush(ts[k + 1..], n), [NodePacket(ts[k], rn)]))
    decreases |ts|
  {
    k := 0;
    if ts != [] && Start(ts[0]) < pid {
      var j := FastRexmitMeaning(ts[1..], pid, rn, rto, now);
      hide Start, HeapPush, NodePacket;
      k := j + 1;
      if j < |ts[1..]| {
        assert ts[1..][j + 1..] == ts[k + 1..];
      }
    }
  }

  // ---------------------------------------------------------------- a whole ack

  /** An ack at a boundary not beyond snd_nxt reaches an exit exactly if it asks for a fast retransmit of a
      segment cut short, and otherwise keeps everything the sender relies on, whatever is lost or reordered. */
  lemma AckInInv(h: Hist, s: Sender, rn: nat, ack: nat, now: int)
    requires SInv(h, s, rn) && ack in h.cuts && now > 0
    ensures var r := AckIn(s, rn, ack, now);
            && (r.Abort? <==> RexmitExits(s, ack))
            && (r.Sent? ==>
                  var h' := AddSent(h, r.pkts);
                  && SInv(h', r.s, rn) && Ext(h, h', s.nxt)
                  && r.s.una == Max(s.una, ack) && s.nxt <= r.s.nxt && r.s.cc.awnd == s.cc.awnd
                  && (forall p :: p in r.pkts ==> DataOk(h', rn, p)))
  {
    if ack == s.una {
      DupAckInv(h, s, rn, now);
    } else {
      CcStepInv(s.cc, AckMoves);
      var s1 := s.(cc := AddWnd(s.cc));
      WindowOnly(h, s, rn, AddWnd(s.cc));
      if ack > s.una {
        AdvanceInv(h, s1, rn, ack, now);
      }
      SendInv(h, if ack > s.una then Advance(s1, ack, now) else s1, rn, now);
    }
  }

  lemma DupAckInv(h: Hist, s: Sender, rn: nat, now: int)
    requires SInv(h, s, rn) && now > 0
    ensures var r := AckIn(s, rn, s.una, now);
            && (r.Abort? <==> RexmitExits(s, s.una))
            && (r.Sent? ==>
                  var h' := AddSent(h, r.pkts);
                  && SInv(h', r.s, rn) && Ext(h, h', s.nxt)
                  && r.s.una == s.una && s.nxt <= r.s.nxt && r.s.cc.awnd == s.cc.awnd
                  && (forall p :: p in r.pkts ==> DataOk(h', rn, p)))
  {
    assert CongInv(s.cc);
    DupAckUnfold(s, rn, now);
    CcStepInv(s.cc, AckDup);
    hide SInv, Send, FastRexmit, Ext, AddSent, DataOk, CongInv, SetDWnd, AckIn;
    var s1 := s.(cc := SetDWnd(s.cc, true));
    WindowOnly(h, s, rn, SetDWnd(s.cc, true));
    if CkNumDupack(s1.cc) {
      FastRexmitInv(h, s1, rn, now);
      if !FrontCut(s) {
        var fr := FastRexmit(s.timers, s.una, rn, s.rto, now).value;
        FrontEnd(h, s1, rn);
        ThenSend(h, s1, rn, fr.0, fr.1, now);
      }
    } else {
      NothingAdded(h, s.nxt);
      assert s1.(timers := s.timers) == s1;
      ThenSend(h, s1, rn, s.timers, [], now);
    }
  }

  lemma DupAckUnfold(s: Sender, rn: nat, now: int)
    ensures var s1 := s.(cc := SetDWnd(s.cc, true));
            AckIn(s, rn, s.una, now) ==
            if !CkNumDupack(s1.cc) then
              var (s2, ps) := Send(s1, rn, now);
              Sent(s2, ps)
            else
              var fr := FastRexmit(s.timers, s.una, rn, s.rto, now);
              if fr.None? then Abort
              else
                var (s2, ps) := Send(s1.(timers := fr.value.0), rn, now);
                Sent(s2, fr.value.1 + ps)
  {
    hide Send, FastRexmit, SetDWnd;
    var s1 := s.(cc := SetDWnd(s.cc, true));
    assert s1.(timers := s.timers) == s1;
    var (s2, ps) := Send(s1, rn, now);
    assert [] + ps == ps;
  }

  lemma FrontStart(h: Hist, s: Sender, rn: nat)
    requires SInv(h, s, rn) && s.timers != []
    ensures Start(s.timers[0]) >= s.una
    ensures FrontCut(s) <==> !NulFree(Bytes(h, s.una, s.timers[0].pId))
  {
    TilesAt(h, s.timers, s.una, s.nxt, 0);
    StartIff(h, s.una, s.timers[0]);
  }

  lemma FrontEnd(h: Hist, s: Sender, rn: nat)
    requires SInv(h, s, rn)
    ensures s.timers != [] ==> NodePacket(s.timers[0], rn).End() <= s.nxt
  {
    if s.timers != [] {
      TilesAt(h, s.timers, s.una, s.nxt, 0);
    }
  }

  /** A retransmission, if any, and the send that follows it. */
  lemma ThenSend(h: Hist, s: Sender, rn: nat, ts: seq<Node>, out: seq<Packet>, now: int)
    requires SInv(AddSent(h, out), s.(timers := ts), rn) && Ext(h, AddSent(h, out), s.nxt) && now > 0
    requires |out| <= 1 && forall p :: p in out ==> DataOk(AddSent(h, out), rn, p) && p.End() <= s.nxt
    ensures var (s', ps) := Send(s.(timers := ts), rn, now);
            var h' := AddSent(h, out + ps);
            && SInv(h', s', rn) && Ext(h, h', s.nxt)
            && s'.una == s.una && s.nxt <= s'.nxt && s'.cc == s.cc
            && (forall p :: p in out + ps ==> DataOk(h', rn, p))
  {
    hide SInv, Send, Ext, AddSent, IsSeg;
    var h1, s1 := AddSent(h, out), s.(timers := ts);
    SendInv(h1, s1, rn, now);
    var (s', ps) := Send(s1, rn, now);
    var h' := AddSent(h1, ps);
    ExtTrans(h, h1, h', s.nxt, s.nxt);
    if out == [] {
      NothingAdded(h, s.nxt);
      assert [] + ps == ps;
    } else {
      var p := out[0];
      assert out == [p];
      AddSentCons(h, p, ps);
      SegExt(h1, h', s.nxt, p.seqNo, p.End(), p.payload);
    }
  }

  // ---------------------------------------------------------------- conservation

  function NodeBytes(ts: seq<Node>): seq<Byte> {
    if ts == [] then [] else ts[0].payload + NodeBytes(ts[1..])
  }

  lemma {:induction false} TilesLe(h: Hist, ts: seq<Node>, lo: nat, hi: nat)
    requires Tiles(h, ts, lo, hi)
    ensures lo <= hi
    decreases |ts|
  {
    if ts != [] {
      TilesLe(h, ts[1..], ts[0].pId, hi);
    }
  }

  /** The nodes' payloads are the bytes in flight exactly if none of these is NUL, and shorter otherwise. */
  lemma {:induction false} TilesBytes(h: Hist, ts: seq<Node>, lo: nat, hi: nat)
    requires Tiles(h, ts, lo, hi) && h.base <= lo <= hi <= h.base + |h.st|
    ensures |NodeBytes(ts)| <= hi - lo
    ensures |NodeBytes(ts)| == hi - lo <==> NulFree(Bytes(h, lo, hi))
    ensures NulFree(Bytes(h, lo, hi)) ==> NodeBytes(ts) == Bytes(h, lo, hi)
    decreases |ts|
  {
    if ts != [] {
      var mid, tl := ts[0].pId, ts[1..];
      TilesLe(h, tl, mid, hi);
      TilesBytes(h, tl, mid, hi);
      BytesJoin(h, lo, mid, hi);
      assert |Bytes(h, lo, mid)| == mid - lo;
      CStrLength(Bytes(h, lo, mid));
      CStrIdentityIff(Bytes(h, lo, mid));
      hide Tiles, Bytes;
      NulFreeJoin(Bytes(h, lo, mid), Bytes(h, mid, hi));
    }
  }

  lemma NulFreeJoin(a: seq<Byte>, b: seq<Byte>)
    ensures NulFree(a + b) <==> NulFree(a) && NulFree(b)
  {
  }

  /** Every accepted byte is acknowledged, in flight, or still queued, in order; and what the timer nodes hold is
      what is in flight exactly if none of it is NUL. */
  lemma Conservation(h: Hist, s: Sender, rn: nat)
    requires SInv(h, s, rn)
    ensures h.st == h.st[..s.una - h.base] + Bytes(h, s.una, s.nxt) + s.cb
    ensures |Bytes(h, s.una, s.nxt)| == s.nxt - s.una
    ensures NodeBytes(s.timers) == Bytes(h, s.una, s.nxt) <==> NulFree(Bytes(h, s.una, s.nxt))
  {
    hide LogOk, KarnOk, Tiles;
    TilesBytes(h, s.timers, s.una, s.nxt);
    ThreeParts(h.st, s.una - h.base, s.nxt - h.base);
  }

  lemma ThreeParts(st: seq<Byte>, a: nat, b: nat)
    requires a <= b <= |st|
    ensures st == st[..a] + st[a..b] + st[b..]
  {
  }

  // ---------------------------------------------------------------- NUL bytes

  /** A timer node re-sends the segment it was made for exactly when the payload has no NUL byte. */
  lemma RetransmitFaithfulIff(seqNo: nat, rn: nat, pl: seq<Byte>, ms: int, xmit: int)
    ensures NodePacket(CopyNode(NodeRaw(seqNo + |pl|, pl, ms, xmit)), rn) == WirePacket(seqNo, rn, pl) <==> NulFree(pl)
  {
    CStrIdentityIff(pl);
  }

  /** ... and asking for a fast retransmit of the first node in flight, whatever is in flight behind it, ends
      the process exactly when it has one. */
  lemma FastRexmitExitsIff(seqNo: nat, rn: nat, pl: seq<Byte>, ms: int, xmit: int, rest: seq<Node>, rto: nat, now: int)
    ensures FastRexmit([CopyNode(NodeRaw(seqNo + |pl|, pl, ms, xmit))] + rest, seqNo, rn, rto, now).None?
            <==> !NulFree(pl)
  {
    CStrLength(pl);
    var n := CopyNode(NodeRaw(seqNo + |pl|, pl, ms, xmit));
    assert ([n] + rest)[0] == n;
  }
}
