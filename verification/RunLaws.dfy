/** When a run keeps reading, where it stops, and what it leaves behind. */
module RunLaws {
  import opened TouTypes
  import opened SenderModel
  import opened SenderProofs
  import opened AckLaws
  import opened ReceiverModel
  import opened ReceiverSteps
  import opened EndpointModel

  /** Neither a SYN, a FIN nor a pure ack. */
  predicate IsData(p: Packet) {
    !p.syn && !p.fin && p.payload != []
  }

  /** The error exit of processGetPktState: neither SYN nor FIN, and no ACK flag, no established connection, or an
      ack of something never sent. */
  lemma ExitsIff(e: Endpoint, p: Packet)
    ensures Classify(e, p) == P_EXIT <==>
            && !p.syn && !p.fin
            && (!p.ack || e.sock != ESTABLISHED || (p.payload == [] && e.snd.nxt < p.ackSeq))
  {
  }

  lemma DataClasses(e: Endpoint, p: Packet)
    requires Classify(e, p) != P_EXIT
    ensures Classify(e, p) in {P_MATCH, P_LESS, P_MORE} <==> IsData(p)
  {
  }

  /** After p, in state e, with tl waiting, the run goes on. */
  predicate Onward(p: Packet, e: Endpoint, tl: seq<Packet>) {
    IsData(p) && tl != [] && !e.rcv.recovering && MAX_CIRCULAR_BUF - |e.rcv.cb| >= 2000
  }

  lemma RunReadUnfold(e: Endpoint, inbox: seq<Packet>, ks: seq<nat>, now: int)
    requires |ks| == |inbox| && inbox != [] && RunRead(e, inbox, ks, now).RunOk?
    ensures HandlePacket(e, inbox[0], ks[0], now).EndOk?
    ensures var o := HandlePacket(e, inbox[0], ks[0], now);
            RunRead(e, inbox, ks, now) ==
            if Onward(inbox[0], o.e, inbox[1..]) then PrependOut(o.out, RunRead(o.e, inbox[1..], ks[1..], now))
            else RunOk(o.e, o.out, inbox[1..])
  {
    if Classify(e, inbox[0]) != P_EXIT {
      DataClasses(e, inbox[0]);
    }
    hide IsData, Classify, AckIn, RcvData;
  }

  lemma {:induction false} RestIsSuffix(e: Endpoint, inbox: seq<Packet>, ks: seq<nat>, now: int)
    requires |ks| == |inbox| && RunRead(e, inbox, ks, now).RunOk?
    ensures var rest := RunRead(e, inbox, ks, now).rest;
            |rest| <= |inbox| && rest == inbox[|inbox| - |rest|..] && (inbox != [] ==> |rest| < |inbox|)
    decreases |inbox|
  {
    if inbox != [] {
      RunReadUnfold(e, inbox, ks, now);
      var o := HandlePacket(e, inbox[0], ks[0], now);
      hide RunRead, HandlePacket, IsData;
      if Onward(inbox[0], o.e, inbox[1..]) {
        RestIsSuffix(o.e, inbox[1..], ks[1..], now);
      }
    }
  }

  /** After a packet the run reads another one, if one is waiting, exactly if the packet was data, recovery has not
      stalled, and cb_recv has room for the largest datagram. */
  lemma ReadsOnIff(e: Endpoint, inbox: seq<Packet>, ks: seq<nat>, now: int)
    requires |ks| == |inbox| && |inbox| >= 2 && RunRead(e, inbox, ks, now).RunOk?
    ensures var o := HandlePacket(e, inbox[0], ks[0], now);
            && o.EndOk?
            && (|RunRead(e, inbox, ks, now).rest| < |inbox| - 1 <==>
                  IsData(inbox[0]) && !o.e.rcv.recovering && MAX_CIRCULAR_BUF - |o.e.rcv.cb| >= 2000)
  {
    RunReadUnfold(e, inbox, ks, now);
    hide RunRead, HandlePacket, IsData;
    var o := HandlePacket(e, inbox[0], ks[0], now);
    if Onward(inbox[0], o.e, inbox[1..]) {
      RestIsSuffix(o.e, inbox[1..], ks[1..], now);
    }
  }

  // ---------------------------------------------------------------- where a run stops

  /** The run r of inbox, once it has handled its packets: what it leaves unread is the end of the inbox, and if
      that is not empty, the last packet was no data, recovery has stalled, or cb_recv may be too full. */
  predicate StopsRightly(inbox: seq<Packet>, r: RunOut)
    requires r.RunOk?
  {
    && |r.rest| <= |inbox| && r.rest == inbox[|inbox| - |r.rest|..]
    && (r.rest != [] ==>
          || (|r.rest| < |inbox| && !IsData(inbox[|inbox| - |r.rest| - 1]))
          || r.e.rcv.recovering
          || MAX_CIRCULAR_BUF - |r.e.rcv.cb| < 2000)
  }

  lemma StopsHere(inbox: seq<Packet>, e: Endpoint, out: seq<Packet>)
    requires inbox != [] && !Onward(inbox[0], e, inbox[1..])
    ensures StopsRightly(inbox, RunOk(e, out, inbox[1..]))
  {
    hide IsData;
  }

  lemma StopsLater(inbox: seq<Packet>, out: seq<Packet>, r: RunOut)
    requires inbox != [] && r.RunOk? && StopsRightly(inbox[1..], r) && |r.rest| < |inbox[1..]|
    ensures StopsRightly(inbox, PrependOut(out, r))
  {
    hide IsData;
  }

  lemma {:induction false} ReadStopsRightly(e: Endpoint, inbox: seq<Packet>, ks: seq<nat>, now: int)
    requires |ks| == |inbox| && RunRead(e, inbox, ks, now).RunOk?
    ensures StopsRightly(inbox, RunRead(e, inbox, ks, now))
    decreases |inbox|
  {
    if inbox != [] {
      hide HandlePacket, IsData, StopsRightly;
      RunReadUnfold(e, inbox, ks, now);
      hide RunRead;
      var o := HandlePacket(e, inbox[0], ks[0], now);
      if Onward(inbox[0], o.e, inbox[1..]) {
        ReadStopsRightly(o.e, inbox[1..], ks[1..], now);
        RestIsSuffix(o.e, inbox[1..], ks[1..], now);
        StopsLater(inbox, o.out, RunRead(o.e, inbox[1..], ks[1..], now));
      } else {
        StopsHere(inbox, o.e, o.out);
      }
    }
  }

  lemma RunUnfold(e: Endpoint, inbox: seq<Packet>, ks: seq<nat>, now: int)
    requires |ks| == |inbox| && Run(e, inbox, ks, now).RunOk?
    ensures if !e.rcv.recovering then Run(e, inbox, ks, now) == RunRead(e, inbox, ks, now)
            else
              var o := ResumeRun(e, now);
              && o.EndOk?
              && Run(e, inbox, ks, now) ==
                 if inbox != [] && MAX_CIRCULAR_BUF - |o.e.rcv.cb| >= 2000 && !o.e.rcv.recovering
                 then PrependOut(o.out, RunRead(o.e, inbox, ks, now))
                 else RunOk(o.e, o.out, inbox)
  {
    hide RunRead, ResumeRun;
  }

  /** A run leaves packets in the socket only after a SYN, a FIN or a pure ack, with a stalled recovery, or with less
      than the largest datagram free in cb_recv. */
  lemma RunStopsOnlyWhen(e: Endpoint, inbox: seq<Packet>, ks: seq<nat>, now: int)
    requires |ks| == |inbox| && Run(e, inbox, ks, now).RunOk?
    ensures StopsRightly(inbox, Run(e, inbox, ks, now))
  {
    RunUnfold(e, inbox, ks, now);
    hide Run, RunRead, ResumeRun, IsData;
    if !e.rcv.recovering {
      hide StopsRightly;
      ReadStopsRightly(e, inbox, ks, now);
    } else {
      var o := ResumeRun(e, now);
      if RunRead(o.e, inbox, ks, now).RunOk? {
        ReadStopsRightly(o.e, inbox, ks, now);
      }
    }
  }

  // ---------------------------------------------------------------- an inbox with room

  function Total(ps: seq<Packet>): nat {
    if ps == [] then 0 else |ps[0].payload| + Total(ps[1..])
  }

  ghost predicate Filled(ps: seq<Packet>) {
    forall i :: 0 <= i < |ps| ==> ps[i].payload != []
  }

  /** Everything stored fits, and a stalled recovery waits for a packet that does not. */
  ghost predicate Stored(r: Receiver, limit: nat) {
    && Filled(r.heap) && |r.cb| + Total(r.heap) <= limit
    && (r.recovering ==> r.heap != [] && !CbFits(r.cb, r.heap[0].payload))
  }

  lemma {:induction false} TotalConcat(a: seq<Packet>, b: seq<Packet>)
    ensures Total(a + b) == Total(a) + Total(b)
    decreases |a|
  {
    if a == [] {
      assert a + b == b;
    } else {
      assert (a + b)[1..] == a[1..] + b;
      TotalConcat(a[1..], b);
    }
  }

  lemma PushTotal(h: seq<Packet>, p: Packet, k: nat)
    requires Filled(h) && p.payload != []
    ensures Total(PushPkt(h, p, k)) == Total(h) + |p.payload| && Filled(PushPkt(h, p, k))
  {
    var j := Slot(h, p, k);
    assert PushPkt(h, p, k) == h[..j] + [p] + h[j..];
    assert h == h[..j] + h[j..];
    TotalConcat(h[..j], h[j..]);
    TotalConcat(h[..j] + [p], h[j..]);
    TotalConcat(h[..j], [p]);
    assert Total([p]) == |p.payload| + Total([p][1..]);
  }

  lemma {:induction false} RecoverStores(heap: seq<Packet>, r: nat, cb: seq<Byte>)
    requires Filled(heap)
    ensures var o := Recover(heap, r, cb);
            && Filled(o.heap) && |o.cb| + Total(o.heap) == |cb| + Total(heap)
            && (o.res == RecNoRoom ==> o.heap != [] && !CbFits(o.cb, o.heap[0].payload))
    decreases |heap|
  {
    if heap != [] && heap[0].seqNo == r && CbFits(cb, heap[0].payload) {
      RecoverStores(heap[1..], heap[0].End(), cb + heap[0].payload);
    }
  }

  lemma RecoveryStores(r: Receiver, now: int, limit: nat)
    requires Filled(r.heap) && |r.cb| + Total(r.heap) <= limit && RecoveryStep(r, now).RcvOk?
    ensures Stored(RecoveryStep(r, now).r, limit)
  {
    RecoverStores(r.heap, r.rcvNxt, r.cb);
    RecoveryUnfold(r, now);
    hide Recover, RecoveryStep, Total, CbFits;
  }

  lemma DataStores(e: Endpoint, p: Packet, k: nat, now: int, limit: nat)
    requires IsData(p) && Stored(e.rcv, limit) && !e.rcv.recovering && HandlePacket(e, p, k, now).EndOk?
    ensures Stored(HandlePacket(e, p, k, now).e.rcv, limit + |p.payload|)
  {
    DataHandled(e, p, k, now);
    hide HandlePacket, Classify;
    if p.seqNo == e.rcv.rcvNxt {
      RecoveryStores(e.rcv.(rcvNxt := p.End(), cb := CbInsert(e.rcv.cb, p.payload)), now, limit + |p.payload|);
    } else if p.seqNo > e.rcv.rcvNxt {
      PushTotal(e.rcv.heap, p, k);
    }
  }

  lemma DataHandled(e: Endpoint, p: Packet, k: nat, now: int)
    requires IsData(p) && HandlePacket(e, p, k, now).EndOk?
    ensures RcvData(e.rcv, p, k, now).RcvOk?
    ensures HandlePacket(e, p, k, now).e == e.(rcv := RcvData(e.rcv, p, k, now).r)
  {
    hide RcvData;
  }

  lemma {:induction false} ReadsStore(e: Endpoint, inbox: seq<Packet>, ks: seq<nat>, now: int, limit: nat)
    requires |ks| == |inbox| && RunRead(e, inbox, ks, now).RunOk? && Stored(e.rcv, limit) && !e.rcv.recovering
    requires forall i :: 0 <= i < |inbox| ==> IsData(inbox[i])
    ensures Stored(RunRead(e, inbox, ks, now).e.rcv, limit + Total(inbox))
    decreases |inbox|
  {
    hide HandlePacket, Stored, Total, Onward;
    TotalCons(inbox);
    if inbox == [] {
      StoredMore(e.rcv, limit, limit);
    } else {
      RunReadUnfold(e, inbox, ks, now);
      hide RunRead;
      var o := HandlePacket(e, inbox[0], ks[0], now);
      DataStores(e, inbox[0], ks[0], now, limit);
      hide IsData;
      if Onward(inbox[0], o.e, inbox[1..]) {
        OnwardClear(inbox[0], o.e, inbox[1..]);
        ReadsStore(o.e, inbox[1..], ks[1..], now, limit + |inbox[0].payload|);
      } else {
        StoredMore(o.e.rcv, limit + |inbox[0].payload|, limit + Total(inbox));
      }
    }
  }

  lemma TotalCons(ps: seq<Packet>)
    ensures Total(ps) == if ps == [] then 0 else |ps[0].payload| + Total(ps[1..])
  {
  }

  lemma StoredMore(r: Receiver, a: nat, b: nat)
    requires Stored(r, a) && a <= b
    ensures Stored(r, b)
  {
  }

  lemma OnwardClear(p: Packet, e: Endpoint, tl: seq<Packet>)
    requires Onward(p, e, tl)
    ensures !e.rcv.recovering
  {
  }

  /** An inbox of data packets is read to the end, and no recovery is left stalled, whenever cb_recv has room for
      all of them, for what waits in the out-of-order heap, and for one more of the largest datagrams. */
  lemma DataIsReadToTheEnd(e: Endpoint, inbox: seq<Packet>, ks: seq<nat>, now: int)
    requires |ks| == |inbox| && Run(e, inbox, ks, now).RunOk?
    requires forall i :: 0 <= i < |inbox| ==> IsData(inbox[i])
    requires Filled(e.rcv.heap) && |e.rcv.cb| + Total(e.rcv.heap) + Total(inbox) + 2000 <= MAX_CIRCULAR_BUF
    ensures var r := Run(e, inbox, ks, now);
            r.rest == [] && !r.e.rcv.recovering
  {
    var limit := |e.rcv.cb| + Total(e.rcv.heap);
    RunUnfold(e, inbox, ks, now);
    hide Run, RunRead, IsData, ResumeRun, StopsRightly, Total;
    RunStopsOnlyWhen(e, inbox, ks, now);
    if e.rcv.recovering {
      ResumeStores(e, now, limit);
      NotStalled(ResumeRun(e, now).e.rcv, limit);
      hide Stored;
      if inbox != [] {
        ReadsStore(ResumeRun(e, now).e, inbox, ks, now, limit);
      }
    } else {
      ReadsStore(e, inbox, ks, now, limit);
    }
    assert Stored(Run(e, inbox, ks, now).e.rcv, limit + Total(inbox)) by {
      EmptyTotal(inbox);
    }
    hide Stored;
    NotStalled(Run(e, inbox, ks, now).e.rcv, limit + Total(inbox));
    AllRead(inbox, Run(e, inbox, ks, now));
  }

  lemma EmptyTotal(inbox: seq<Packet>)
    ensures inbox == [] ==> Total(inbox) == 0
  {
  }

  lemma ResumeStores(e: Endpoint, now: int, limit: nat)
    requires Filled(e.rcv.heap) && |e.rcv.cb| + Total(e.rcv.heap) <= limit && ResumeRun(e, now).EndOk?
    ensures Stored(ResumeRun(e, now).e.rcv, limit)
  {
    hide Stored, RecoveryStep;
    RecoveryStores(e.rcv, now, limit);
  }

  lemma AllRead(inbox: seq<Packet>, r: RunOut)
    requires r.RunOk? && StopsRightly(inbox, r) && forall i :: 0 <= i < |inbox| ==> IsData(inbox[i])
    requires !r.e.rcv.recovering && MAX_CIRCULAR_BUF - |r.e.rcv.cb| >= 2000
    ensures r.rest == []
  {
  }

  lemma NotStalled(r: Receiver, limit: nat)
    requires Stored(r, limit) && limit + 2000 <= MAX_CIRCULAR_BUF
    ensures !r.recovering && MAX_CIRCULAR_BUF - |r.cb| >= 2000
  {
  }

  // ---------------------------------------------------------------- writing

  /** touSend queues all the bytes if they leave a cell free, and none otherwise; then it transmits from the front of
      the queue all that the window allows. */
  lemma WriteUsesWindow(e: Endpoint, data: seq<Byte>, now: int)
    ensures var o := TouSend(e, data, now);
            && o.EndOk? && o.e == e.(snd := o.e.snd) && UsedUp(o.e.snd, e.snd.nxt, |o.out|)
            && Payloads(o.out) + o.e.snd.cb
               == if 0 < |data| < 6291456 - |e.snd.cb| then e.snd.cb + data else e.snd.cb
  {
    var s := e.snd.(cb := CbInsert(e.snd.cb, data));
    SendUsesUp(s, e.rcv.rcvNxt, now);
    SendSafe(s, e.rcv.rcvNxt, now);
    hide Send, UsedUp;
  }

  // ---------------------------------------------------------------- the state of the socket

  /** The state a packet leaves the socket in. */
  function SockAfter(sock: SockState, p: Packet): SockState {
    if p.syn then SYN_RECEIVED else if p.fin then CLOSE_WAIT else sock
  }

  /** The socket e once its last packet p, in state sock, has been handled; a SYN also sets rcv_nxt. */
  predicate EndsAs(e: Endpoint, sock: SockState, p: Packet) {
    e.sock == SockAfter(sock, p) && (p.syn ==> e.rcv.rcvNxt == p.seqNo + 1)
  }

  lemma HandledSock(e: Endpoint, p: Packet, k: nat, now: int)
    requires HandlePacket(e, p, k, now).EndOk?
    ensures EndsAs(HandlePacket(e, p, k, now).e, e.sock, p)
  {
    hide AckIn, RcvData;
  }

  lemma OnwardSock(sock: SockState, p: Packet, e: Endpoint, tl: seq<Packet>)
    requires Onward(p, e, tl)
    ensures SockAfter(sock, p) == sock && tl != []
  {
  }

  lemma {:induction false} ReadSock(e: Endpoint, inbox: seq<Packet>, ks: seq<nat>, now: int)
    requires |ks| == |inbox| && inbox != [] && RunRead(e, inbox, ks, now).RunOk?
    ensures var r := RunRead(e, inbox, ks, now);
            |r.rest| < |inbox| && EndsAs(r.e, e.sock, inbox[|inbox| - |r.rest| - 1])
    decreases |inbox|
  {
    RunReadUnfold(e, inbox, ks, now);
    RestIsSuffix(e, inbox, ks, now);
    HandledSock(e, inbox[0], ks[0], now);
    var o := HandlePacket(e, inbox[0], ks[0], now);
    hide RunRead, HandlePacket, EndsAs, Onward;
    if Onward(inbox[0], o.e, inbox[1..]) {
      OnwardSock(e.sock, inbox[0], o.e, inbox[1..]);
      ReadSock(o.e, inbox[1..], ks[1..], now);
    }
  }

  /** A run ends in CLOSE_WAIT if its last packet was a FIN, in SYN_RECEIVED and expecting the next number if that
      was a SYN, and otherwise in the state it started in; and in CLOSE_WAIT touRecv hands the application nothing. */
  lemma RunEndsInState(e: Endpoint, inbox: seq<Packet>, ks: seq<nat>, now: int, n: int)
    requires |ks| == |inbox| && Run(e, inbox, ks, now).RunOk?
    ensures var r := Run(e, inbox, ks, now);
            && |r.rest| <= |inbox|
            && (if |r.rest| == |inbox| then r.e.sock == e.sock
                else EndsAs(r.e, e.sock, inbox[|inbox| - |r.rest| - 1]))
            && (r.e.sock == CLOSE_WAIT ==> TouRecv(r.e, n).1 == [])
  {
    RunUnfold(e, inbox, ks, now);
    hide Run, RunRead, ResumeRun;
    var e1 := if e.rcv.recovering then ResumeRun(e, now).e else e;
    assert e1.sock == e.sock by {
      if e.rcv.recovering {
        ResumedSock(e, now);
      }
    }
    if inbox != [] && RunRead(e1, inbox, ks, now).RunOk? {
      ReadSock(e1, inbox, ks, now);
    }
  }

  lemma ResumedSock(e: Endpoint, now: int)
    requires ResumeRun(e, now).EndOk?
    ensures ResumeRun(e, now).e.sock == e.sock
  {
    hide RecoveryStep;
  }
}
