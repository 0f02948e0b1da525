/** When bytes can wait in cb_send with nothing in flight to draw the ack that sends them. */
module Stranding {
  import opened TouTypes
  import opened Congestion
  import opened History
  import opened SenderModel
  import opened SenderProofs
  import opened AckProofs
  import opened Network
  import opened NetworkProofs
  import opened FlowControl
  import Deliverable
  import EndToEnd
  import Progress

  /** A history from s to t in which the network loses and duplicates nothing, with a clock that never runs
      backwards. */
  ghost predicate LossFree(s: Sys, ls: seq<Label>, t: Sys, c0: int, c1: int) {
    && Exec(s, ls) == Some(Running(t)) && Progress.Timed(ls, c0, c1) && 0 < c0 <= c1
    && forall i :: 0 <= i < |ls| ==> Deliverable.Helpful(ls[i]) || ls[i].AppSend?
  }

  /** Some such history leaves bytes queued and nothing in flight. */
  ghost predicate Strands(s: Sys) {
    exists ls, t, c :: LossFree(s, ls, t, 1, c) && t.a.snd.cb != [] && t.a.snd.una == t.a.snd.nxt
  }

  lemma TakesLossFree(s: Sys, ls: seq<Label>, t: Sys, c0: int, c1: int)
    requires Takes(s, ls, t, c0, c1)
    ensures LossFree(s, ls, t, c0, c1)
  {
  }

  lemma LossFreeOne(s: Sys, l: Label, c: int)
    requires Enabled(s, l) && Next(s, l).Running? && 0 < c <= Progress.TimeOf(l, c)
    requires Deliverable.Helpful(l) || l.AppSend?
    ensures LossFree(s, [l], Next(s, l).s, c, Progress.TimeOf(l, c))
  {
    hide Enabled, Next;
    var t, c1 := Next(s, l).s, Progress.TimeOf(l, c);
    assert [l][1..] == [];
    assert Exec(t, []) == Some(Running(t));
    assert Progress.Timed([], c1, c1);
  }

  lemma LossFreeBoth(s: Sys, l1: seq<Label>, t: Sys, l2: seq<Label>, u: Sys, c0: int, c1: int, c2: int)
    requires LossFree(s, l1, t, c0, c1) && LossFree(t, l2, u, c1, c2)
    ensures LossFree(s, l1 + l2, u, c0, c2)
  {
    Progress.TimedConcat(l1, l2, c0, c1, c2);
    Progress.ExecConcat(s, l1, t, l2);
  }

  /** An idle sender whose window does not open keeps a byte it is given. */
  lemma NotSent(s: Sys, n: nat, x: Byte, now: int)
    requires Quiet(s, n) && !Opens(s.a.snd.cc) && now > 0
    ensures var r := Next(s, AppSend([x], now));
            r.Running? && r.s.a.snd.cb == [x] && r.s.a.snd.una == r.s.a.snd.nxt
  {
    assert CbInsert([], [x]) == [x] by {
      assert [] + [x] == [x];
    }
    var s0 := s.a.snd.(cb := [x]);
    SendsWhenIdleIff(s0, Rn(s), now);
    SendSafe(s0, Rn(s), now);
    hide Inv, Send, Opens, GetWnd;
    assert [] + Send(s0, Rn(s), now).0.cb == [x];
  }

  lemma TimedOutWindow(h: Hist, s: Sender, rn: nat, now: int)
    requires SInv(h, s, rn) && s.timers != [] && s.timers[0].ms < now
    ensures var r := TimeOut(s, rn, now);
            r.Sent? && r.s.cc == SetTWnd(s.cc) && r.s.una == s.una && r.s.nxt == s.nxt && r.s.cb == s.cb
  {
    NothingToClear(h, s, rn);
    TimeOutInv(h, s, rn, now);
    hide SInv, Ext, AddSent, Mangled, DataOk, Postpone, HeapPush, SetTWnd;
  }

  /** A timeout leaves what is in flight there, and the window at one segment. */
  lemma TimedOut(s: Sys, p: Packet, now: int)
    requires Inv(s) && s.a.snd.timers != [] && s.a.snd.timers[0].ms < now && p in s.data && now > 0
    ensures var r := Next(s, SndTimer(now));
            && r.Running? && Inv(r.s) && r.s.b == s.b && p in r.s.data
            && r.s.a.snd.una == s.a.snd.una && r.s.a.snd.nxt == s.a.snd.nxt && r.s.a.snd.cb == s.a.snd.cb
            && r.s.a.snd.cc == SetTWnd(s.a.snd.cc)
  {
    hide Inv, SInv, TimeOut, AddSent, SetTWnd, Next;
    SenderSound(s);
    TimedOutWindow(s.h, s.a.snd, Rn(s), now);
    Deliverable.TimerNext(s, now);
    EndToEnd.StepInv(s, SndTimer(now));
  }

  /** A byte is written, its timer fires early, and it is acknowledged. */
  lemma EarlyTimeout(s: Sys) returns (ls: seq<Label>, t: Sys, c: int)
    requires Quiet(s, 0) && Opens(s.a.snd.cc)
    ensures LossFree(s, ls, t, 1, c) && Quiet(t, 1) && c > 0
    ensures var cc := SetTWnd(s.a.snd.cc);
            !Traps(cc) && t.a.snd.cc == AddWnd(cc)
  {
    hide Inv, Next, Takes, AddWnd, SetTWnd, Opens, LossFree;
    var l1 := AppSend([65], 1);
    Written(s, 0, 65, 1);
    LossFreeOne(s, l1, 1);
    var s1, p := Next(s, l1).s, WirePacket(s.a.snd.nxt, Rn(s), [65]);
    Progress.FrontInFlight(s1);
    var now := Max(1, s1.a.snd.timers[0].ms + 1);
    TimedOut(s1, p, now);
    LossFreeOne(s1, SndTimer(now), 1);
    var s2 := Next(s1, SndTimer(now)).s;
    var l3;
    l3, t, c := RoundTrip(s2, 0, p, now);
    TakesLossFree(s2, l3, t, now, c);
    LossFreeBoth(s, [l1], s1, [SndTimer(now)], s2, 1, 1, now);
    LossFreeBoth(s, [l1] + [SndTimer(now)], s2, l3, t, 1, now, c);
    ls := [l1] + [SndTimer(now)] + l3;
  }

  lemma StrandedAfter(s0: Sys, ls: seq<Label>, s: Sys, n: nat, c: int)
    requires LossFree(s0, ls, s, 1, c) && Quiet(s, n) && !Opens(s.a.snd.cc)
    ensures Strands(s0)
  {
    var l := AppSend([65], c);
    hide Inv, Next, Opens;
    NotSent(s, n, 65, c);
    LossFreeOne(s, l, c);
    LossFreeBoth(s0, ls, s, [l], Next(s, l).s, 1, c, c);
  }

  /** Below MIN_SEND_SIZE the first write is stranded; up to one segment a timeout and two acks lead to congestion
      avoidance, where cal_num_caxmit allows no pass. */
  lemma NarrowStrands(s: Sys)
    requires Started(s) && s.a.snd.cc.awnd <= SMSS
    ensures Strands(s)
  {
    StartsQuiet(s);
    if s.a.snd.cc.awnd < MIN_SEND_SIZE {
      assert Exec(s, []) == Some(Running(s));
      StrandedAfter(s, [], s, 0, 1);
    } else {
      var awnd := s.a.snd.cc.awnd;
      hide Quiet, Takes, LossFree, Strands;
      var l1, s1, c1 := EarlyTimeout(s);
      assert s1.a.snd.cc == Cong(CC_SS, 2 * SMSS, awnd, 2 * SMSS, 0);
      var l2, s2, c2 := OneMore(s1, 1, c1);
      TakesLossFree(s1, l2, s2, c1, c2);
      LossFreeBoth(s, l1, s1, l2, s2, 1, c1, c2);
      StrandedAfter(s, l1 + l2, s2, 2, c2);
    }
  }

  lemma StartsQuiet(s: Sys)
    requires Started(s)
    ensures Quiet(s, 0) && s.a.snd.cc == InitCong(s.a.snd.cc.awnd)
  {
    EndToEnd.StartedInv(s);
    hide Inv;
  }

  /** Bytes can be left queued with nothing in flight, even over a network that loses and duplicates nothing, if
      and only if the advertised window is at most one segment. */
  lemma StrandsIff(s0: Sys)
    requires Started(s0)
    ensures Strands(s0) <==> s0.a.snd.cc.awnd <= SMSS
  {
    hide Started, Exec;
    if s0.a.snd.cc.awnd <= SMSS {
      NarrowStrands(s0);
    } else if Strands(s0) {
      var ls, t, c :| LossFree(s0, ls, t, 1, c) && t.a.snd.cb != [] && t.a.snd.una == t.a.snd.nxt;
      Progress.NeverStranded(s0, ls, t);
      assert false;
    }
  }
}
