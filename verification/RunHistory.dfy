/** A whole run of processTou::run, which handles many packets, is a history of the single-packet
    transitions the theorems about the network are stated for. */
module RunHistory {
  import opened TouTypes
  import opened History
  import opened SenderModel
  import opened EndpointModel
  import opened Network
  import opened NetworkProofs
  import opened EndToEnd

  /** How many packets RunRead handles. */
  function ReadCount(e: Endpoint, inbox: seq<Packet>, ks: seq<nat>, now: int): (n: nat)
    requires |ks| == |inbox|
    ensures n <= |inbox|
    decreases |inbox|
  {
    if inbox == [] then 0
    else
      var o := HandlePacket(e, inbox[0], ks[0], now);
      if o.EndOk? && Classify(e, inbox[0]) in {P_MATCH, P_LESS, P_MORE} && Gate(o.e, inbox[1..]) then
        1 + ReadCount(o.e, inbox[1..], ks[1..], now)
      else 1
  }

  function Reads(inbox: seq<Packet>, ks: seq<nat>, now: int): seq<Label>
    requires |ks| == |inbox|
    decreases |inbox|
  {
    if inbox == [] then [] else [RecvData(inbox[0], ks[0], now)] + Reads(inbox[1..], ks[1..], now)
  }

  /** How many packets a whole run handles. */
  function Handled(e: Endpoint, inbox: seq<Packet>, ks: seq<nat>, now: int): (n: nat)
    requires |ks| == |inbox|
    ensures n <= |inbox|
  {
    if !e.rcv.recovering then ReadCount(e, inbox, ks, now)
    else
      var o := ResumeRun(e, now);
      if o.EndOk? && Gate(o.e, inbox) then ReadCount(o.e, inbox, ks, now) else 0
  }

  /** The labels of one run of b. */
  function RunLabels(e: Endpoint, inbox: seq<Packet>, ks: seq<nat>, now: int): seq<Label>
    requires |ks| == |inbox|
  {
    var n := Handled(e, inbox, ks, now);
    (if e.rcv.recovering then [Resume(now)] else []) + Reads(inbox[..n], ks[..n], now)
  }

  /** The network after b has read n packets and done r. */
  function AfterRun(s: Sys, inbox: seq<Packet>, n: nat, r: RunOut): Outcome
    requires n <= |inbox|
  {
    if r.RunAbort? then Aborted
    else Running(s.(b := r.e, data := s.data - multiset(inbox[..n]), acks := s.acks + multiset(r.out)))
  }

  lemma AfterCons(s: Sys, t: Sys, p: Packet, inbox: seq<Packet>, n: nat, out: seq<Packet>, r: RunOut)
    requires n <= |inbox| && multiset([p] + inbox) <= s.data
    requires t == s.(b := t.b, data := s.data - multiset{p}, acks := s.acks + multiset(out))
    ensures AfterRun(t, inbox, n, r) == AfterRun(s, [p] + inbox, n + 1, PrependOut(out, r))
  {
    assert ([p] + inbox)[..n + 1] == [p] + inbox[..n];
    assert multiset([p] + inbox[..n]) == multiset{p} + multiset(inbox[..n]);
    if r.RunOk? {
      assert multiset(out + r.out) == multiset(out) + multiset(r.out);
      assert t.acks + multiset(r.out) == s.acks + multiset(out + r.out);
      assert t.data - multiset(inbox[..n]) == s.data - multiset([p] + inbox[..n]);
    }
  }

  lemma AfterNothing(s: Sys, inbox: seq<Packet>, rest: seq<Packet>)
    ensures AfterRun(s, inbox, 0, RunOk(s.b, [], rest)) == Running(s)
  {
    assert s.data - multiset(inbox[..0]) == s.data && s.acks + multiset([]) == s.acks;
  }

  lemma ExecOne(s: Sys, l: Label, ls: seq<Label>)
    requires Enabled(s, l)
    ensures Exec(s, [l] + ls) == if Next(s, l).Aborted? then Some(Aborted) else Exec(Next(s, l).s, ls)
  {
    hide Enabled, Next;
    assert ([l] + ls)[1..] == ls;
  }

  lemma {:induction false} ReadsAreHistory(s: Sys, inbox: seq<Packet>, ks: seq<nat>, now: int)
    requires |ks| == |inbox| && multiset(inbox) <= s.data && !s.b.rcv.recovering && now > 0
    ensures var n, r := ReadCount(s.b, inbox, ks, now), RunRead(s.b, inbox, ks, now);
            && Exec(s, Reads(inbox[..n], ks[..n], now)) == Some(AfterRun(s, inbox, n, r))
            && (r.RunOk? ==> r.rest == inbox[n..])
    decreases |inbox|
  {
    if inbox == [] {
      NoReads(s, inbox, ks, now);
      AfterNothing(s, inbox, []);
    } else {
      var p, tl, kt := inbox[0], inbox[1..], ks[1..];
      var l, o, n := RecvData(p, ks[0], now), HandlePacket(s.b, p, ks[0], now), ReadCount(s.b, inbox, ks, now);
      assert inbox == [p] + tl;
      assert multiset(inbox) == multiset{p} + multiset(tl);
      ReadUnfold(s.b, inbox, ks, now);
      hide HandlePacket, Classify, Exec, AfterRun, Reads, Next, RunRead, ReadCount, Gate, PrependOut;
      ReadsCons(inbox, ks, n, now);
      NextRead(s, p, ks[0], now);
      ExecOne(s, l, Reads(tl[..n - 1], kt[..n - 1], now));
      if o.EndOk? {
        var t := Next(s, l).s;
        if Goes(s.b, p, o.e, tl) {
          ReadsAreHistory(t, tl, kt, now);
          AfterCons(s, t, p, tl, n - 1, o.out, RunRead(o.e, tl, kt, now));
        } else {
          NoReads(t, tl, kt, now);
          AfterNothing(t, tl, tl);
          AfterCons(s, t, p, tl, 0, o.out, RunOk(o.e, [], tl));
          PrependEmpty(o, tl);
        }
      }
    }
  }

  lemma PrependEmpty(o: EndOut, rest: seq<Packet>)
    requires o.EndOk?
    ensures PrependOut(o.out, RunOk(o.e, [], rest)) == RunOk(o.e, o.out, rest)
  {
    assert o.out + [] == o.out;
  }

  /** The run goes on to read another packet. */
  predicate Goes(e: Endpoint, p: Packet, e': Endpoint, tl: seq<Packet>) {
    Classify(e, p) in {P_MATCH, P_LESS, P_MORE} && Gate(e', tl)
  }

  lemma ReadUnfold(e: Endpoint, inbox: seq<Packet>, ks: seq<nat>, now: int)
    requires |ks| == |inbox| && inbox != []
    ensures var o, tl, kt := HandlePacket(e, inbox[0], ks[0], now), inbox[1..], ks[1..];
            if o.EndAbort? then RunRead(e, inbox, ks, now) == RunAbort && ReadCount(e, inbox, ks, now) == 1
            else if Goes(e, inbox[0], o.e, tl) then
              && RunRead(e, inbox, ks, now) == PrependOut(o.out, RunRead(o.e, tl, kt, now))
              && ReadCount(e, inbox, ks, now) == 1 + ReadCount(o.e, tl, kt, now)
              && !o.e.rcv.recovering
            else RunRead(e, inbox, ks, now) == RunOk(o.e, o.out, tl) && ReadCount(e, inbox, ks, now) == 1
  {
    hide HandlePacket, Classify;
  }

  lemma NextRead(s: Sys, p: Packet, k: nat, now: int)
    ensures var o := HandlePacket(s.b, p, k, now);
            Next(s, RecvData(p, k, now)) ==
            if o.EndAbort? then Aborted
            else Running(s.(b := o.e, data := s.data - multiset{p}, acks := s.acks + multiset(o.out)))
  {
    hide HandlePacket;
  }

  lemma ReadsCons(inbox: seq<Packet>, ks: seq<nat>, n: nat, now: int)
    requires |ks| == |inbox| && 0 < n <= |inbox|
    ensures Reads(inbox[..n], ks[..n], now) ==
            [RecvData(inbox[0], ks[0], now)] + Reads(inbox[1..][..n - 1], ks[1..][..n - 1], now)
  {
    assert inbox[..n][1..] == inbox[1..][..n - 1] && ks[..n][1..] == ks[1..][..n - 1];
  }

  /** One run of b, over any packets that have reached its socket, is the history RunLabels: same abort, same
      socket state, same acks, and the packets it leaves unread stay where they are. */
  lemma RunIsHistory(s: Sys, inbox: seq<Packet>, ks: seq<nat>, now: int)
    requires |ks| == |inbox| && multiset(inbox) <= s.data && now > 0
    ensures var n, r := Handled(s.b, inbox, ks, now), Run(s.b, inbox, ks, now);
            && Exec(s, RunLabels(s.b, inbox, ks, now)) == Some(AfterRun(s, inbox, n, r))
            && (r.RunOk? ==> r.rest == inbox[n..])
  {
    hide RunRead, ReadCount, ResumeRun, Gate, Reads, Exec, AfterRun;
    var n := Handled(s.b, inbox, ks, now);
    var ls := Reads(inbox[..n], ks[..n], now);
    if !s.b.rcv.recovering {
      assert [] + ls == ls;
      ReadsAreHistory(s, inbox, ks, now);
    } else {
      ResumedRun(s, inbox, ks, now, n);
    }
  }

  lemma ResumedRun(s: Sys, inbox: seq<Packet>, ks: seq<nat>, now: int, n: nat)
    requires |ks| == |inbox| && multiset(inbox) <= s.data && now > 0 && s.b.rcv.recovering
    requires n == Handled(s.b, inbox, ks, now)
    ensures var r := Run(s.b, inbox, ks, now);
            && Exec(s, [Resume(now)] + Reads(inbox[..n], ks[..n], now)) == Some(AfterRun(s, inbox, n, r))
            && (r.RunOk? ==> r.rest == inbox[n..])
  {
    hide RunRead, ReadCount, ResumeRun, Reads, Exec;
    var o := ResumeRun(s.b, now);
    ExecOne(s, Resume(now), Reads(inbox[..n], ks[..n], now));
    if o.EndOk? {
      var t := Next(s, Resume(now)).s;
      if Gate(o.e, inbox) {
        ReadsAreHistory(t, inbox, ks, now);
        AfterResume(s, t, inbox, n, o.out, RunRead(o.e, inbox, ks, now));
      } else {
        NoReads(t, inbox, ks, now);
        assert inbox[0..] == inbox && s.data - multiset(inbox[..0]) == s.data;
      }
    }
  }

  lemma NoReads(s: Sys, inbox: seq<Packet>, ks: seq<nat>, now: int)
    requires |ks| == |inbox|
    ensures Exec(s, Reads(inbox[..0], ks[..0], now)) == Some(Running(s))
  {
    assert Reads(inbox[..0], ks[..0], now) == [];
  }

  lemma AfterResume(s: Sys, t: Sys, inbox: seq<Packet>, n: nat, out: seq<Packet>, r: RunOut)
    requires n <= |inbox| && t == s.(b := t.b, acks := s.acks + multiset(out))
    ensures AfterRun(t, inbox, n, r) == AfterRun(s, inbox, n, PrependOut(out, r))
  {
    if r.RunOk? {
      assert multiset(out + r.out) == multiset(out) + multiset(r.out);
    }
  }

  /** Whole runs are safe: with no data duplicated by the network and nothing mangled, no run of b aborts,
      whatever has reached its socket and in whatever order, and the guarantees of the theorems hold again. */
  lemma RunsNeverAbort(s: Sys, inbox: seq<Packet>, ks: seq<nat>, now: int)
    requires Inv(s) && NoCopies(s) && |ks| == |inbox| && multiset(inbox) <= s.data && now > 0
    ensures Run(s.b, inbox, ks, now).RunOk?
    ensures var t := AfterRun(s, inbox, Handled(s.b, inbox, ks, now), Run(s.b, inbox, ks, now));
            t.Running? && Inv(t.s) && NoCopies(t.s) && Forward(s, t.s)
  {
    hide Inv, NoCopies, Exec, Run, Forward, EverMangles, EverExitsOnNul;
    RunIsHistory(s, inbox, ks, now);
    var ls := RunLabels(s.b, inbox, ks, now);
    OnlyReads(s.b, inbox, ks, now);
    NothingSentByB(s, ls);
    ExecKeeps(s, ls);
    ExecNoCopies(s, ls);
  }

  lemma {:induction false} NothingSentByB(s: Sys, ls: seq<Label>)
    requires forall i :: 0 <= i < |ls| ==> ls[i].RecvData? || ls[i].Resume?
    ensures !EverMangles(s, ls) && !EverExitsOnNul(s, ls)
    decreases |ls|
  {
    hide Enabled, Next;
    if ls != [] && Enabled(s, ls[0]) && Next(s, ls[0]).Running? {
      NothingSentByB(Next(s, ls[0]).s, ls[1..]);
    }
  }

  lemma {:induction false} ReadsOnly(inbox: seq<Packet>, ks: seq<nat>, now: int)
    requires |ks| == |inbox|
    ensures forall l :: l in Reads(inbox, ks, now) ==> l.RecvData?
    decreases |inbox|
  {
    if inbox != [] {
      ReadsOnly(inbox[1..], ks[1..], now);
    }
  }

  lemma OnlyReads(e: Endpoint, inbox: seq<Packet>, ks: seq<nat>, now: int)
    requires |ks| == |inbox|
    ensures var ls := RunLabels(e, inbox, ks, now);
            NoDuplication(ls) && forall i :: 0 <= i < |ls| ==> ls[i].RecvData? || ls[i].Resume?
  {
    var n := Handled(e, inbox, ks, now);
    ReadsOnly(inbox[..n], ks[..n], now);
    var ls := RunLabels(e, inbox, ks, now);
    var rs := Reads(inbox[..n], ks[..n], now);
    hide Reads, Handled;
    forall i | 0 <= i < |ls|
      ensures ls[i].RecvData? || ls[i].Resume?
    {
      assert ls[i] == Resume(now) || ls[i] in rs;
    }
  }

  /** A run of a handles exactly one ack, is the transition RecvAck, and exits exactly if that ack asks for a
      fast retransmit of a segment cut short. */
  lemma AckRunIsStep(s: Sys, inbox: seq<Packet>, ks: seq<nat>, now: int)
    requires Inv(s) && |ks| == |inbox| && inbox != [] && inbox[0] in s.acks && now > 0
    ensures var r := Run(s.a, inbox, ks, now);
            && (r.RunAbort? <==> RexmitExits(s.a.snd, inbox[0].ackSeq))
            && (r.RunOk? ==> r.rest == inbox[1..])
            && Next(s, RecvAck(inbox[0], now)) ==
               if r.RunAbort? then Aborted
               else Running(s.(a := r.e, acks := s.acks - multiset{inbox[0]},
                               data := s.data + multiset(r.out), h := AddSent(s.h, r.out)))
  {
    hide Inv, AddSent, HandlePacket, EndpointModel.Run, SInv, RexmitExits;
    NotRecovering(s);
    RecvAckStep(s, inbox[0], now);
    AckRun(s.a, inbox, ks, now);
  }

  lemma NotRecovering(s: Sys)
    requires Inv(s)
    ensures !s.a.rcv.recovering
  {
  }

  lemma AckRun(e: Endpoint, inbox: seq<Packet>, ks: seq<nat>, now: int)
    requires |ks| == |inbox| && inbox != [] && !e.rcv.recovering && Classify(e, inbox[0]) == P_ACK
    ensures var o := HandlePacket(e, inbox[0], 0, now);
            Run(e, inbox, ks, now) == if o.EndAbort? then RunAbort else RunOk(o.e, o.out, inbox[1..])
  {
    hide AckIn, Classify;
  }
}
