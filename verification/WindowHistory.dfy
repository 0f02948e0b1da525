/** The window theorems hold of the connection: in every history of the two sockets, the sender's window is what its
    acks and timeouts, in order, make of the initial window. */
module WindowHistory {
  import opened TouTypes
  import opened Congestion
  import opened History
  import opened SenderModel
  import opened SenderProofs
  import opened AckProofs
  import opened AckLaws
  import opened WindowLaws
  import opened EndpointModel
  import opened Network
  import opened NetworkProofs
  import opened EndToEnd
  import opened Deliverable

  /** The window event of a step: an ack of snd_una, any other ack, or a timeout of the front node. */
  function StepEvents(s: Sys, l: Label): seq<CcEvent> {
    match l
    case RecvAck(p, _) => [if p.ackSeq == s.a.snd.una then AckDup else AckMoves]
    case SndTimer(now) => if s.a.snd.timers != [] && s.a.snd.timers[0].ms < now then [TimedOut] else []
    case _ => []
  }

  function Events(s: Sys, ls: seq<Label>): seq<CcEvent>
    decreases |ls|
  {
    if ls == [] || !Enabled(s, ls[0]) || Next(s, ls[0]).Aborted? then []
    else StepEvents(s, ls[0]) + Events(Next(s, ls[0]).s, ls[1..])
  }

  lemma NothingHappens(c: Cong)
    ensures CcRun(c, []) == Some(c)
  {
  }

  lemma OneEvent(c: Cong, e: CcEvent)
    requires CongInv(c)
    ensures !Traps(c) && CcRun(c, [e]) == Some(CcNext(c, e))
  {
    CcStepInv(c, e);
    assert [e][1..] == [];
  }

  lemma TimerWindow(s: Sys, now: int)
    requires Inv(s) && CongInv(s.a.snd.cc) && Next(s, SndTimer(now)).Running?
    ensures CcRun(s.a.snd.cc, StepEvents(s, SndTimer(now))) == Some(Next(s, SndTimer(now)).s.a.snd.cc)
  {
    hide Inv, SInv, TimeOut, Next, CcRun, AddSent, CongInv;
    SenderSound(s);
    TimeOutDue(s.h, s.a.snd, Rn(s), now);
    TimerNext(s, now);
    NothingHappens(s.a.snd.cc);
    OneEvent(s.a.snd.cc, TimedOut);
  }

  lemma AckWindow(s: Sys, p: Packet, now: int)
    requires Inv(s) && CongInv(s.a.snd.cc) && Enabled(s, RecvAck(p, now)) && Next(s, RecvAck(p, now)).Running?
    ensures CcRun(s.a.snd.cc, StepEvents(s, RecvAck(p, now))) == Some(Next(s, RecvAck(p, now)).s.a.snd.cc)
  {
    AckClass(s, p);
    hide Inv, SInv, AckIn, Next, HandlePacket, Classify, CcRun, AddSent, CongInv;
    AckHandled(s.a, p, now);
    AckNext(s, p, now);
    AckChangesWindow(s.a.snd, Rn(s), p.ackSeq, now);
    OneEvent(s.a.snd.cc, if p.ackSeq == s.a.snd.una then AckDup else AckMoves);
  }

  lemma OtherWindow(s: Sys, l: Label)
    requires Next(s, l).Running? && !l.RecvAck? && !l.SndTimer?
    ensures Next(s, l).s.a.snd.cc == s.a.snd.cc
  {
    if l.AppSend? {
      SendSafe(s.a.snd.(cb := CbInsert(s.a.snd.cb, l.bytes)), Rn(s), l.now);
    }
    hide HandlePacket, ResumeRun, SndTimerScan, AckTimerScan, Send;
  }

  lemma StepWindow(s: Sys, l: Label)
    requires Inv(s) && Enabled(s, l) && Next(s, l).Running?
    ensures CcRun(s.a.snd.cc, StepEvents(s, l)) == Some(Next(s, l).s.a.snd.cc)
  {
    SenderSound(s);
    SInvCong(s.h, s.a.snd, Rn(s));
    hide Inv, Next, CcRun, SInv, CongInv;
    match l
    case RecvAck(p, now) => AckWindow(s, p, now);
    case SndTimer(now) => TimerWindow(s, now);
    case _ =>
      OtherWindow(s, l);
      NothingHappens(s.a.snd.cc);
  }

  lemma {:induction false} RunWindow(s: Sys, ls: seq<Label>, t: Sys)
    requires Inv(s) && Exec(s, ls) == Some(Running(t))
    ensures CcRun(s.a.snd.cc, Events(s, ls)) == Some(t.a.snd.cc)
    decreases |ls|
  {
    hide Inv, HitsOverlap, ExitsOnNul, Next, Enabled, StepEvents, CcRun;
    if ls == [] {
      NothingHappens(s.a.snd.cc);
    } else {
      var u := Next(s, ls[0]).s;
      StepInv(s, ls[0]);
      StepWindow(s, ls[0]);
      RunWindow(u, ls[1..], t);
      CcRunConcat(s.a.snd.cc, StepEvents(s, ls[0]), Events(u, ls[1..]));
    }
  }

  /** In every history, over any network, the sender's window is the run of its own acks and timeouts from the
      window of the handshake, so every theorem about such runs holds of the connection. In particular the duplicate
      count is the number of acks of snd_una received in a row, and the sender is in recovery exactly after three. */
  lemma WindowFollowsEvents(s0: Sys, ls: seq<Label>, s: Sys)
    requires Started(s0) && Exec(s0, ls) == Some(Running(s))
    ensures CcRun(InitCong(s0.a.snd.cc.awnd), Events(s0, ls)) == Some(s.a.snd.cc)
    ensures s.a.snd.cc.dup == Trailing(Events(s0, ls))
    ensures s.a.snd.cc.cc == CC_FR <==> Trailing(Events(s0, ls)) >= 3
  {
    StartedInv(s0);
    StartedWindow(s0);
    hide Inv, Exec, Started, NoCopies, Events;
    RunWindow(s0, ls, s);
    DuplicatesInARow(s0.a.snd.cc, Events(s0, ls));
  }

  lemma StartedWindow(s: Sys)
    requires Started(s)
    ensures s.a.snd.cc == InitCong(s.a.snd.cc.awnd) && CongInv(s.a.snd.cc) && s.a.snd.cc.dup == 0
  {
  }

  lemma AckSplits(s: Sys, p: Packet, now: int) returns (more: seq<Packet>)
    requires Inv(s) && Enabled(s, RecvAck(p, now)) && Next(s, RecvAck(p, now)).Running?
    ensures Next(s, RecvAck(p, now)).s.data
            == s.data + multiset(Again(s.a.snd, Rn(s), p.ackSeq)) + multiset(more)
    ensures forall q :: q in more ==> s.a.snd.nxt <= q.seqNo
  {
    AckClass(s, p);
    hide Inv, SInv, AckIn, Next, HandlePacket, Classify, AddSent, NodePacket, FrontCut, Again;
    SenderSound(s);
    RexmitOnThird(s.h, s.a.snd, Rn(s), p.ackSeq, now);
    AckHandled(s.a, p, now);
    AckNext(s, p, now);
    var again, out := Again(s.a.snd, Rn(s), p.ackSeq), AckIn(s.a.snd, Rn(s), p.ackSeq, now).pkts;
    more := out[|again|..];
    assert out == again + more;
  }

  /** After every history, an ack retransmits the segment at snd_una exactly if it is the third duplicate in a row,
      and whatever else it transmits is new. */
  lemma RetransmitsOnThirdInARow(s0: Sys, ls: seq<Label>, s: Sys, p: Packet, now: int) returns (more: seq<Packet>)
    requires Started(s0) && Exec(s0, ls) == Some(Running(s))
    requires Enabled(s, RecvAck(p, now)) && Next(s, RecvAck(p, now)).Running?
    ensures var again := if p.ackSeq == s.a.snd.una && Trailing(Events(s0, ls)) == 2 && s.a.snd.timers != []
                         then [NodePacket(s.a.snd.timers[0], Rn(s))] else [];
            Next(s, RecvAck(p, now)).s.data == s.data + multiset(again) + multiset(more)
    ensures forall q :: q in more ==> s.a.snd.nxt <= q.seqNo
  {
    StartedInv(s0);
    hide Exec, Started, NoCopies, Events, Inv, Next, Enabled, NodePacket;
    WindowFollowsEvents(s0, ls, s);
    ExecKeeps(s0, ls);
    more := AckSplits(s, p, now);
  }
}
