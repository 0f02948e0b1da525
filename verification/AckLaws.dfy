/** What an acknowledgement does to the window, to what is transmitted and to the round-trip estimate. */
module AckLaws {
  import opened TouTypes
  import opened Congestion
  import opened History
  import opened SenderModel
  import opened SenderProofs
  import opened AckProofs

  // ---------------------------------------------------------------- the window and the third duplicate

  /** An ack of snd_una is a duplicate for the window, and every other ack, newer or older, is a new one. */
  lemma AckChangesWindow(s: Sender, rn: nat, ack: nat, now: int)
    requires CongInv(s.cc) && AckIn(s, rn, ack, now).Sent?
    ensures !Traps(s.cc)
    ensures AckIn(s, rn, ack, now).s.cc == CcNext(s.cc, if ack == s.una then AckDup else AckMoves)
  {
    hide Send, FastRexmit, ClearByAck, CalRto;
    if ack == s.una {
      DupAckUnfold(s, rn, now);
      var s1 := s.(cc := SetDWnd(s.cc, true));
      SendSafe(s1, rn, now);
      var fr := FastRexmit(s.timers, s.una, rn, s.rto, now);
      if fr.Some? {
        SendSafe(s1.(timers := fr.value.0), rn, now);
      }
    } else {
      CcStepInv(s.cc, AckMoves);
      var s1 := s.(cc := AddWnd(s.cc));
      SendSafe(if ack > s.una then Advance(s1, ack, now) else s1, rn, now);
    }
  }

  /** What an ack retransmits: the front node, on the third duplicate. */
  function Again(s: Sender, rn: nat, ack: nat): seq<Packet> {
    if ack == s.una && s.cc.dup == 2 && s.timers != [] then [NodePacket(s.timers[0], rn)] else []
  }

  lemma ThirdOnly(c: Cong)
    requires CongInv(c)
    ensures CkNumDupack(SetDWnd(c, true)) <==> c.dup == 2
  {
  }

  lemma {:induction false} ConsecutiveNew(ps: seq<Packet>, lo: nat)
    requires Consecutive(ps, lo)
    ensures forall q :: q in ps ==> lo <= q.seqNo
    decreases |ps|
  {
    if ps != [] {
      ConsecutiveNew(ps[1..], ps[0].End());
    }
  }

  lemma SendNew(s: Sender, rn: nat, now: int)
    ensures forall q :: q in Send(s, rn, now).1 ==> s.nxt <= q.seqNo
  {
    SendSafe(s, rn, now);
    ConsecutiveNew(Send(s, rn, now).1, s.nxt);
  }

  /** An ack retransmits at most the front node and then sends from s1, where nothing new has been sent yet. */
  lemma AckThenSend(h: Hist, s: Sender, rn: nat, ack: nat, now: int) returns (s1: Sender)
    requires SInv(h, s, rn) && AckIn(s, rn, ack, now).Sent?
    ensures s1.nxt == s.nxt
    ensures var (s2, ps) := Send(s1, rn, now);
            AckIn(s, rn, ack, now) == Sent(s2, Again(s, rn, ack) + ps)
  {
    SInvCong(h, s, rn);
    if ack == s.una {
      s1 := DupThenSend(h, s, rn, now);
    } else {
      hide SInv, Send, ClearByAck, CalRto, AddWnd, CongInv, NodePacket;
      CcStepInv(s.cc, AckMoves);
      s1 := if ack > s.una then Advance(s.(cc := AddWnd(s.cc)), ack, now) else s.(cc := AddWnd(s.cc));
      assert [] + Send(s1, rn, now).1 == Send(s1, rn, now).1;
    }
  }

  lemma DupThenSend(h: Hist, s: Sender, rn: nat, now: int) returns (s1: Sender)
    requires SInv(h, s, rn) && AckIn(s, rn, s.una, now).Sent?
    ensures s1.nxt == s.nxt
    ensures var (s2, ps) := Send(s1, rn, now);
            AckIn(s, rn, s.una, now) == Sent(s2, Again(s, rn, s.una) + ps)
  {
    SInvCong(h, s, rn);
    ThirdOnly(s.cc);
    hide SInv, Send, FastRexmit, SetDWnd, CongInv, FrontCut, Ext, AddSent, DataOk, AckIn, NodePacket, CkNumDupack;
    DupAckUnfold(s, rn, now);
    s1 := s.(cc := SetDWnd(s.cc, true));
    if s.cc.dup == 2 {
      FastRexmitInv(h, s, rn, now);
      var fr := FastRexmit(s.timers, s.una, rn, s.rto, now).value;
      s1 := s1.(timers := fr.0);
    } else {
      assert [] + Send(s1, rn, now).1 == Send(s1, rn, now).1;
    }
  }

  lemma AckExits(h: Hist, s: Sender, rn: nat, ack: nat, now: int)
    requires SInv(h, s, rn)
    ensures AckIn(s, rn, ack, now).Abort? <==> ack == s.una && s.cc.dup == 2 && FrontCut(s)
  {
    SInvCong(h, s, rn);
    ThirdOnly(s.cc);
    FastRexmitInv(h, s, rn, now);
    DupAckUnfold(s, rn, now);
    CcStepInv(s.cc, AckMoves);
    hide SInv, Send, FastRexmit, ClearByAck, CalRto, SetDWnd, AddWnd, CongInv, FrontCut, Ext, AddSent, DataOk;
  }

  /** An ack retransmits the segment at snd_una exactly if it is the third duplicate in a row, it ends the process
      then if that segment was cut short, and everything else it transmits is new. */
  lemma RexmitOnThird(h: Hist, s: Sender, rn: nat, ack: nat, now: int)
    requires SInv(h, s, rn)
    ensures var r := AckIn(s, rn, ack, now);
            && (r.Abort? <==> ack == s.una && s.cc.dup == 2 && FrontCut(s))
            && (r.Sent? ==>
                  && Again(s, rn, ack) <= r.pkts
                  && forall q :: q in r.pkts[|Again(s, rn, ack)|..] ==> s.nxt <= q.seqNo)
  {
    hide SInv, Send, AckIn, FrontCut, Again;
    AckExits(h, s, rn, ack, now);
    if AckIn(s, rn, ack, now).Sent? {
      var s1 := AckThenSend(h, s, rn, ack, now);
      SendNew(s1, rn, now);
    }
  }

  // ---------------------------------------------------------------- using the window

  /** With n more segments sent since snd_nxt was nxt, the sender has nothing left to send or no window left to send it
      in, as SenderProofs.SendUsesWindow puts it. */
  predicate UsedUp(r: Sender, nxt: nat, n: nat) {
    r.cb == [] || if r.cc.cc == CC_CA then EvenPasses(n, RightEdge(r) - nxt) else RightEdge(r) - r.nxt < 1400
  }

  lemma SendUsesUp(s: Sender, rn: nat, now: int)
    ensures var (r, ps) := Send(s, rn, now);
            UsedUp(r, s.nxt, |ps|)
  {
    hide Send, Maximal;
    SendUsesWindow(s, rn, now);
    SendSafe(s, rn, now);
  }

  /** Every ack, duplicate, old or new, is followed by sending all that the new window allows. */
  lemma AckUsesWindow(h: Hist, s: Sender, rn: nat, ack: nat, now: int)
    requires SInv(h, s, rn) && AckIn(s, rn, ack, now).Sent?
    ensures var r := AckIn(s, rn, ack, now);
            |Again(s, rn, ack)| <= |r.pkts| && UsedUp(r.s, s.nxt, |r.pkts| - |Again(s, rn, ack)|)
  {
    hide SInv, Send, AckIn, UsedUp, Again;
    var s1 := AckThenSend(h, s, rn, ack, now);
    SendUsesUp(s1, rn, now);
  }

  // ---------------------------------------------------------------- timers of new segments

  /** A timer node for each segment: its copy, a deadline one timeout from now, and the time. */
  function Armed(ps: seq<Packet>, rto: nat, now: int): (ns: seq<Node>)
    ensures |ns| == |ps|
  {
    if ps == [] then [] else [CopyNode(NodeRaw(ps[0].End(), ps[0].payload, now + rto, now))] + Armed(ps[1..], rto, now)
  }

  predicate EndsBy(ts: seq<Node>, nxt: nat) {
    forall i :: 0 <= i < |ts| ==> ts[i].pId <= nxt
  }

  lemma SendOneArms(s: Sender, rn: nat, sz: nat, now: int)
    requires EndsBy(s.timers, s.nxt)
    ensures var (s1, p) := SendOne(s, rn, sz, now);
            && s1.timers == s.timers + Armed([p], s.rto, now) && s1.rto == s.rto
            && EndsBy(s1.timers, s1.nxt)
  {
    var (s1, p) := SendOne(s, rn, sz, now);
    var n := NodeRaw(p.End(), p.payload, now + s.rto, now);
    assert [p][1..] == [] && Armed([p], s.rto, now) == [CopyNode(n)] + [];
    hide SendOne;
    PushAtEnd(s.timers, n);
  }

  lemma ArmedCons(ts: seq<Node>, p: Packet, ps: seq<Packet>, rto: nat, now: int)
    ensures ts + Armed([p], rto, now) + Armed(ps, rto, now) == ts + Armed([p] + ps, rto, now)
  {
    assert ([p] + ps)[1..] == ps && [p][1..] == [];
  }

  lemma {:induction false} SendLoopArms(s: Sender, rn: nat, cnt: int, now: int)
    requires EndsBy(s.timers, s.nxt)
    ensures var (s', ps) := SendLoop(s, rn, cnt, now);
            s'.timers == s.timers + Armed(ps, s.rto, now)
    decreases |s.cb|, Max(cnt, 0)
  {
    if SendLoop(s, rn, cnt, now).1 == [] {
      assert s.timers + [] == s.timers;
    } else {
      SendLoopUnfold(s, rn, cnt, now);
      hide SendLoop, SendSize, EndsBy, Armed;
      SendOneArms(s, rn, SendSize(s), now);
      var (s1, p) := SendOne(s, rn, SendSize(s), now);
      var cnt1 := if s.cc.cc == CC_CA then cnt - 1 else cnt;
      SendLoopArms(s1, rn, cnt1, now);
      ArmedCons(s.timers, p, SendLoop(s1, rn, cnt1, now).1, s.rto, now);
    }
  }

  lemma {:induction false} ArmedAt(ps: seq<Packet>, rto: nat, now: int, i: nat)
    requires i < |ps|
    ensures Armed(ps, rto, now)[i] == NodeRaw(ps[i].End(), CStr(ps[i].payload), now + rto, now)
    decreases i
  {
    if i > 0 {
      ArmedAt(ps[1..], rto, now, i - 1);
    }
  }

  /** Every segment that send transmits gets a timer node of its own, behind the ones in flight: its bytes as copied,
      the time of transmission, and a deadline one timeout later. */
  lemma SendArms(h: Hist, s: Sender, rn: nat, now: int)
    requires SInv(h, s, rn)
    ensures var (s', ps) := Send(s, rn, now);
            && |s'.timers| == |s.timers| + |ps| && s'.timers[..|s.timers|] == s.timers
            && forall i :: 0 <= i < |ps| ==>
                 s'.timers[|s.timers| + i] == NodeRaw(ps[i].End(), CStr(ps[i].payload), now + s.rto, now)
  {
    forall i | 0 <= i < |s.timers|
      ensures s.timers[i].pId <= s.nxt
    {
      TilesAt(h, s.timers, s.una, s.nxt, i);
    }
    SendLoopArms(s, rn, CalNumCaXmit(SendSize(s)), now);
    hide SInv, SendLoop, Armed;
    var ps := Send(s, rn, now).1;
    forall i | 0 <= i < |ps|
      ensures Armed(ps, s.rto, now)[i] == NodeRaw(ps[i].End(), CStr(ps[i].payload), now + s.rto, now)
    {
      ArmedAt(ps, s.rto, now, i);
    }
  }

  /** The first transmission of an idle sender is repeated by a timer scan exactly if more than one timeout has
      passed since. */
  lemma FirstTimeoutIff(h: Hist, s: Sender, rn: nat, t1: int, t2: int)
    requires SInv(h, s, rn) && s.timers == [] && t1 > 0 && Send(s, rn, t1).1 != []
    ensures var r := TimeOut(Send(s, rn, t1).0, rn, t2);
            r.Sent? && (r.pkts != [] <==> t1 + s.rto < t2)
  {
    SendArms(h, s, rn, t1);
    SendInv(h, s, rn, t1);
    hide SInv, Send, TimeOut, AddSent, Ext, DataOk, Mangled, FrontCut;
    TimeOutInv(AddSent(h, Send(s, rn, t1).1), Send(s, rn, t1).0, rn, t2);
  }

  // ---------------------------------------------------------------- the round-trip estimate

  /** The new estimate is an eighth of the old one and seven eighths of the sample, up to the rounding of two
      divisions, and the timeout is twice the estimate. */
  predicate Blends(s: Sender, r: Sender, sample: int) {
    r.rto == 2 * r.rtt && s.rtt + 7 * sample - 14 <= 8 * r.rtt <= s.rtt + 7 * sample
  }

  lemma CalRtoBlends(rto: nat, rtt: nat, n: Node, now: int)
    ensures var (rto', rtt') := CalRto(rto, rtt, Some(n), now);
            var cur := Max(now - n.xmit, 10);
            if n.xmit < 0 then rto' == rto && rtt' == rtt
            else rto' == 2 * rtt' && rtt + 7 * cur - 14 <= 8 * rtt' <= rtt + 7 * cur
  {
  }

  /** What the acknowledgement of node i's segment does to the estimate. */
  ghost predicate FedBy(h: Hist, s: Sender, rn: nat, i: nat, r: Sender, now: int)
    requires i < |s.timers|
  {
    var n := s.timers[i];
    if Sends(h, rn, From(s.timers, s.una, i), n) >= 2 then r.rto == s.rto && r.rtt == s.rtt
    else n.xmit > 0 && Blends(s, r, Max(now - n.xmit, 10))
  }

  lemma AckedNode(h: Hist, s: Sender, rn: nat, ack: nat) returns (i: nat)
    requires SInv(h, s, rn) && ack in h.cuts && s.una < ack <= s.nxt
    ensures i < |s.timers| && s.timers[i].pId == ack && ClearByAck(s.timers, ack).1 == Some(s.timers[i])
  {
    TilesClear(h, s.timers, s.una, s.nxt, ack);
    hide SInv, ClearByAck, ClearTimer;
    i :| 0 <= i < |s.timers| && s.timers[i] == ClearByAck(s.timers, ack).1.value;
  }

  lemma NodeFeeds(h: Hist, s: Sender, rn: nat, i: nat, r: Sender, now: int)
    requires SInv(h, s, rn) && i < |s.timers| && (r.rto, r.rtt) == CalRto(s.rto, s.rtt, Some(s.timers[i]), now)
    ensures FedBy(h, s, rn, i, r, now)
  {
    hide SInv, CalRto, Sends;
    KarnOfNode(h, s, rn, i);
    CalRtoBlends(s.rto, s.rtt, s.timers[i], now);
  }

  lemma OldAckKeepsEstimate(s: Sender, rn: nat, ack: nat, now: int)
    requires ack <= s.una && AckIn(s, rn, ack, now).Sent?
    ensures var r := AckIn(s, rn, ack, now).s;
            r.rto == s.rto && r.rtt == s.rtt
  {
    hide Send, FastRexmit, SetDWnd, AddWnd;
    if ack == s.una {
      DupAckUnfold(s, rn, now);
      var s1 := s.(cc := SetDWnd(s.cc, true));
      SendSafe(s1, rn, now);
      var fr := FastRexmit(s.timers, s.una, rn, s.rto, now);
      if fr.Some? {
        SendSafe(s1.(timers := fr.value.0), rn, now);
      }
    } else {
      SendSafe(s.(cc := AddWnd(s.cc)), rn, now);
    }
  }

  lemma AdvanceEstimate(s: Sender, rn: nat, ack: nat, now: int)
    requires ack > s.una && AckIn(s, rn, ack, now).Sent?
    ensures var r := AckIn(s, rn, ack, now).s;
            (r.rto, r.rtt) == CalRto(s.rto, s.rtt, ClearByAck(s.timers, ack).1, now)
  {
    hide Send, AddWnd, ClearByAck, CalRto;
    SendSafe(Advance(s.(cc := AddWnd(s.cc)), ack, now), rn, now);
  }

  lemma KarnOfNode(h: Hist, s: Sender, rn: nat, i: nat)
    requires SInv(h, s, rn) && i < |s.timers|
    ensures var n := s.timers[i];
            if Sends(h, rn, From(s.timers, s.una, i), n) >= 2 then n.xmit == -1 else n.xmit > 0
  {
    hide Tiles, LogOk, Sends, CutsOk;
    assert KarnAt(h, rn, From(s.timers, s.una, i), s.timers[i], i);
  }

  /** Karn's rule (section 3 of RFC 6298) for whole acks: an ack that is not newer leaves the estimate alone; a newer
      one leaves it alone if the segment that ends there was transmitted more than once, and otherwise blends in
      the time since its only transmission, but at least 10 ms. */
  lemma AckFeedsEstimate(h: Hist, s: Sender, rn: nat, ack: nat, now: int)
    requires SInv(h, s, rn) && ack in h.cuts && AckIn(s, rn, ack, now).Sent?
    ensures var r := AckIn(s, rn, ack, now).s;
            if ack <= s.una then r.rto == s.rto && r.rtt == s.rtt
            else exists i :: 0 <= i < |s.timers| && s.timers[i].pId == ack && FedBy(h, s, rn, i, r, now)
  {
    if ack <= s.una {
      OldAckKeepsEstimate(s, rn, ack, now);
    } else {
      SInvCuts(h, s, rn);
      assert ack <= s.nxt;
      AdvanceEstimate(s, rn, ack, now);
      var i := AckedNode(h, s, rn, ack);
      hide SInv, AckIn, ClearByAck, CalRto, FedBy;
      NodeFeeds(h, s, rn, i, AckIn(s, rn, ack, now).s, now);
    }
  }

  /** From transmission to acknowledgement: a segment an idle sender transmits at t1 and sees acknowledged at t2
      feeds t2 - t1 into the estimate. */
  lemma RoundTripMeasured(h: Hist, s: Sender, rn: nat, t1: int, t2: int)
    requires SInv(h, s, rn) && s.timers == [] && t1 > 0 && t2 > 0 && Send(s, rn, t1).1 != []
    ensures var (s1, ps) := Send(s, rn, t1);
            var r := AckIn(s1, rn, ps[0].End(), t2);
            r.Sent? && Blends(s, r.s, Max(t2 - t1, 10))
  {
    SendArms(h, s, rn, t1);
    SendInv(h, s, rn, t1);
    SendSafe(s, rn, t1);
    var (s1, ps) := Send(s, rn, t1);
    var h', ack := AddSent(h, ps), ps[0].End();
    FirstEnd(h', rn, ps);
    hide SInv, Send, AckIn, AddSent, Ext, IsSeg, Blends, CalRto, RexmitExits;
    assert s1.una < ack;
    AckInInv(h', s1, rn, ack, t2);
    AdvanceEstimate(s1, rn, ack, t2);
    assert ClearByAck(s1.timers, ack).1 == Some(s1.timers[0]);
    MeasuredBlends(s, s1.timers[0], AckIn(s1, rn, ack, t2).s, t1, t2);
  }

  lemma FirstEnd(h: Hist, rn: nat, ps: seq<Packet>)
    requires ps != [] && DataOk(h, rn, ps[0])
    ensures ps[0].End() in h.cuts && ps[0].seqNo < ps[0].End()
  {
  }

  lemma MeasuredBlends(s: Sender, n: Node, r: Sender, t1: int, t2: int)
    requires (r.rto, r.rtt) == CalRto(s.rto, s.rtt, Some(n), t2) && n.xmit == t1 && t1 > 0
    ensures Blends(s, r, Max(t2 - t1, 10))
  {
    CalRtoBlends(s.rto, s.rtt, n, t2);
  }
}
