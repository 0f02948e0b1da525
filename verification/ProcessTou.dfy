/** The socket table entry and the processTou and timerCk operations on it, in place. Every method is
    tied to the value-level function of the same operation; a false `ok` is an exit(1) or a failed
    assertion of the process. */
module ProcessTouObject {
  import opened TouTypes
  import opened Congestion
  import opened SscaObject
  import opened CircBuf
  import opened DelayedAck
  import opened SenderModel
  import opened AckProofs
  import opened ReceiverModel
  import opened EndpointModel
  import opened TimerObjects
  import opened Network

  /** sockTb, with the fields of its tou_cb. */
  class SockTb {
    var sockstate: SockState
    var recovering: bool
    var sndUna: nat
    var sndNxt: nat
    var rcvNxt: nat
    var rto: nat
    var rtt: nat
    var delackState: DelState
    var minhpRecv: seq<Packet>
    const sc: Ssca
    const cbSend: CircularBuffer
    const cbRecv: CircularBuffer

    ghost predicate Valid()
      reads this, cbSend, cbRecv
    {
      && cbSend.Valid() && cbRecv.Valid()
      && cbSend.buf.Length == cbRecv.buf.Length == MAX_CIRCULAR_BUF
      && cbSend != cbRecv && cbSend.buf != cbRecv.buf
    }

    constructor ()
      ensures Valid() && fresh(cbSend) && fresh(cbSend.buf) && fresh(cbRecv) && fresh(cbRecv.buf) && fresh(sc)
      ensures cbSend.Contents() == [] && cbRecv.Contents() == [] && minhpRecv == [] && !recovering
      ensures delackState == DEL_XMIT && rto == rtt == 3000 && sc.View() == Cong(CC_SS, SMSS, SMSS, MAX_SSTHRESH, 0)
    {
      sockstate, recovering := OTHER_STATE, false;
      sc := new Ssca();
      cbSend := new CircularBuffer(MAX_CIRCULAR_BUF);
      cbRecv := new CircularBuffer(MAX_CIRCULAR_BUF);
      delackState, rto, rtt := DEL_XMIT, 3000, 3000;
      minhpRecv := [];
    }
  }

  class ProcessTou {
    const tb: SockTb
    const timers: TimerHeap
    const acks: AckDeque

    ghost predicate Valid()
      reads tb, tb.cbSend, tb.cbRecv, timers
    {
      tb.Valid() && HeapOrdered(timers.nodes)
    }

    ghost function Snd(): Sender
      requires Valid()
      reads tb, tb.cbSend, tb.cbSend.buf, tb.cbRecv, tb.sc, timers
    {
      Sender(tb.sndUna, tb.sndNxt, tb.cbSend.Contents(), timers.nodes, tb.sc.View(), tb.rto, tb.rtt)
    }

    ghost function Rcv(): Receiver
      requires Valid()
      reads tb, tb.cbSend, tb.cbRecv, tb.cbRecv.buf, timers, acks
    {
      Receiver(tb.rcvNxt, tb.minhpRecv, tb.cbRecv.Contents(), tb.recovering, Delack(tb.delackState, acks.nodes))
    }

    ghost function View(): Endpoint
      requires Valid()
      reads tb, tb.cbSend, tb.cbSend.buf, tb.cbRecv, tb.cbRecv.buf, tb.sc, timers, acks
    {
      Endpoint(tb.sockstate, Snd(), Rcv())
    }

    constructor ()
      ensures Valid() && fresh(tb) && fresh(tb.cbSend) && fresh(tb.cbSend.buf)
      ensures fresh(tb.cbRecv) && fresh(tb.cbRecv.buf)
      ensures fresh(tb.sc) && fresh(timers) && fresh(acks)
      ensures Snd().cb == [] && timers.nodes == [] && tb.rto == tb.rtt == 3000 && tb.sc.View().ssthresh == MAX_SSTHRESH
      ensures tb.sc.View().dup == 0 && Rcv() == Receiver(tb.rcvNxt, [], [], false, INIT_DELACK)
    {
      tb := new SockTb();
      timers := new TimerHeap();
      acks := new AckDeque();
    }

    /** The control block as touConnect and touAccept leave it on a new socket: the two agreed sequence
        numbers, slow start from two segments, and the advertised window. */
    method Establish(isn: nat, peer: nat, awnd: nat)
      requires Valid() && Snd().cb == [] && timers.nodes == [] && tb.rto == tb.rtt == 3000
      requires tb.sc.View().ssthresh == MAX_SSTHRESH && tb.sc.View().dup == 0
      requires Rcv() == Receiver(tb.rcvNxt, [], [], false, INIT_DELACK)
      modifies tb, tb.sc
      ensures Valid() && View() == Endpoint(ESTABLISHED, InitSender(isn, awnd), InitReceiver(peer))
    {
      tb.sc.cc := CC_SS;
      tb.sc.sndCwnd := 2 * SMSS;
      tb.sc.sndAwnd := awnd;
      tb.sndNxt, tb.sndUna, tb.rcvNxt := isn, isn, peer;
      tb.sockstate := ESTABLISHED;
    }

    // -------------------------------------------------------------- sending

    method GetSendSize() returns (sz: nat)
      requires Valid()
      modifies tb.sc`sndWnd
      ensures Valid() && View() == old(View()) && sz == SendSize(Snd())
    {
      var wnd := tb.sc.GetWnd();
      sz := 0;
      if tb.sndUna + wnd >= tb.sndNxt {
        sz := tb.sndUna + wnd - tb.sndNxt;
      }
    }

    /** Read at most len bytes off the front of cb_send. */
    method PopSndQ(len: nat) returns (seg: seq<Byte>)
      requires Valid()
      modifies tb.cbSend
      ensures Valid()
      ensures var n := Min(len, |old(Snd()).cb|);
              seg == old(Snd()).cb[..n] && View() == old(View()).(snd := old(Snd()).(cb := old(Snd()).cb[n..]))
    {
      var end;
      seg, end := tb.cbSend.GetAt(len);
      var dread := tb.cbSend.Remove(|seg|);
      assert dread == |seg|;
    }

    /** Transmit a segment popped off cb_send and put it under a timer. */
    method Transmit(seg: seq<Byte>, now: int) returns (p: Packet)
      requires Valid()
      modifies tb`sndNxt, timers
      ensures Valid() && p == WirePacket(old(Snd()).nxt, tb.rcvNxt, seg)
      ensures var s := old(Snd());
              var n := NodeRaw(s.nxt + |seg|, seg, now + s.rto, now);
              View() == old(View()).(snd := s.(nxt := s.nxt + |seg|, timers := HeapPush(s.timers, n)))
    {
      p := WirePacket(tb.sndNxt, tb.rcvNxt, seg);
      tb.sndNxt := tb.sndNxt + |seg|;
      timers.Push(NodeRaw(p.seqNo + |seg|, seg, now + tb.rto, now));
    }

    /** One pass of the loop in send. */
    method SendSegment(sz: nat, now: int) returns (p: Packet)
      requires Valid()
      modifies tb`sndNxt, tb.cbSend, timers
      ensures Valid()
      ensures var (s, q) := SendOne(old(Snd()), tb.rcvNxt, sz, now);
              p == q && View() == old(View()).(snd := s)
    {
      ghost var s := Snd();
      var seg;
      if sz >= SMSS {
        seg := PopSndQ(SMSS);
      } else {
        seg := PopSndQ(sz);
      }
      SendOneParts(s, tb.rcvNxt, sz, now, seg);
      hide HeapPush, SendOne;
      p := Transmit(seg, now);
    }

    /** The loop in send, with cnt passes left in congestion avoidance. */
    method SendPasses(cnt0: int, now: int) returns (out: seq<Packet>)
      requires Valid()
      modifies tb`sndNxt, tb.cbSend, tb.sc`sndWnd, timers
      ensures Valid() && View() == old(View()).(snd := Snd())
      ensures SendLoop(old(Snd()), tb.rcvNxt, cnt0, now) == (Snd(), out)
    {
      hide CircularBuffer.Contents, CircularBuffer.Valid, HeapOrdered, SendSize;
      var cnt := cnt0;
      out := [];
      OnwardsNone(SendLoop(Snd(), tb.rcvNxt, cnt, now));
      while 0 < tb.cbSend.totEl
        invariant Valid() && View() == old(View()).(snd := Snd())
        invariant SendLoop(old(Snd()), tb.rcvNxt, cnt0, now) == Onwards(out, SendLoop(Snd(), tb.rcvNxt, cnt, now))
        decreases tb.cbSend.totEl, Max(cnt, 0)
      {
        SendLoopPass(Snd(), tb.rcvNxt, cnt, now);
        var sz := GetSendSize();
        if tb.sc.cc == CC_CA {
          if cnt <= 0 {
            break;
          }
          cnt := cnt - 1;
        } else if MIN_SEND_SIZE > sz {
          break;
        }
        var p := SendSegment(sz, now);
        OnwardsOne(out, p, SendLoop(Snd(), tb.rcvNxt, cnt, now));
        out := out + [p];
      }
      SendLoopPass(Snd(), tb.rcvNxt, cnt, now);
      assert out + [] == out;
    }

    method Send(now: int) returns (out: seq<Packet>)
      requires Valid()
      modifies tb`sndNxt, tb.cbSend, tb.sc`sndWnd, timers
      ensures Valid()
      ensures var (s, ps) := SenderModel.Send(old(Snd()), tb.rcvNxt, now);
              out == ps && View() == old(View()).(snd := s)
    {
      var sz := GetSendSize();
      out := SendPasses(CalNumCaXmit(sz), now);
    }

    // -------------------------------------------------------------- acknowledgements and timers

    method CalRto(sample: Option<Node>, now: int)
      modifies tb`rto, tb`rtt
      ensures (tb.rto, tb.rtt) == SenderModel.CalRto(old(tb.rto), old(tb.rtt), sample, now)
    {
      if sample.None? || sample.value.xmit < 0 {
        return;
      }
      var cur := now - sample.value.xmit;
      if cur < 10 {
        cur := 10;
      }
      tb.rtt := tb.rtt / 8 + cur * 7 / 8;
      tb.rto := 2 * tb.rtt;
    }

    /** delete_timer, after snd_una has moved to ack. */
    method DeleteTimer(ack: nat, now: int)
      requires Valid() && ack == tb.sndUna
      modifies timers, tb`rto, tb`rtt
      ensures Valid() && View() == old(View()).(snd := Advance(old(Snd()), ack, now))
    {
      var sample := timers.ClearUpTo(ack);
      CalRto(sample, now);
    }

    /** ssca::addwnd, or the division by zero. */
    method AddWnd() returns (ok: bool)
      modifies tb.sc
      ensures ok == !Traps(old(tb.sc.View()))
      ensures tb.sc.View() == if ok then Congestion.AddWnd(old(tb.sc.View())) else old(tb.sc.View())
    {
      if tb.sc.sndCwnd == 0 && (tb.sc.cc == CC_CA || (tb.sc.cc == CC_SS && tb.sc.sndCwnd >= tb.sc.sndSsthresh)) {
        return false;
      }
      var _ := tb.sc.AddWnd();
      ok := true;
    }

    /** What run does with a pure ack before it sends: proc_ack, then delete_timer, or setdwnd and a possible
        fast retransmit. */
    method ProcAck(ack: nat, now: int) returns (ok: bool, out: seq<Packet>)
      requires Valid()
      modifies tb`sndUna, tb`rto, tb`rtt, tb.sc, timers
      ensures ok ==> Valid()
      ensures var r := Acknowledged(old(Snd()), tb.rcvNxt, ack, now);
              ok == r.Some? && (ok ==> View() == old(View()).(snd := r.value.0) && out == r.value.1)
    {
      ok, out := true, [];
      if ack > tb.sndUna {
        ok := AddWnd();
        if ok {
          tb.sndUna := ack;
          DeleteTimer(ack, now);
        }
      } else if ack == tb.sndUna {
        var _ := tb.sc.SetDWnd(ack, tb.sndUna);
        if tb.sc.dupackcount == REXMT_THRESH {
          ok, out := timers.RexmitForDupAck(ack, tb.rcvNxt, tb.rto, now);
        }
      } else {
        ok := AddWnd();
      }
    }

    /** The branch of run for a pure ack. */
    method AckIn(ack: nat, now: int) returns (ok: bool, out: seq<Packet>)
      requires Valid()
      modifies tb`sndUna, tb`sndNxt, tb`rto, tb`rtt, tb.sc, tb.cbSend, timers
      ensures ok ==> Valid()
      ensures var r := SenderModel.AckIn(old(Snd()), tb.rcvNxt, ack, now);
              ok == r.Sent? && (ok ==> View() == old(View()).(snd := r.s) && out == r.pkts)
    {
      AckInParts(Snd(), tb.rcvNxt, ack, now);
      ok, out := ProcAck(ack, now);
      if ok {
        var more := Send(now);
        out := out + more;
      }
    }

    /** timerCk::proc_sndpkt */
    method ProcSndPkt(now: int) returns (ok: bool, out: seq<Packet>)
      requires Valid()
      modifies timers, tb.sc
      ensures ok ==> Valid()
      ensures var r := TimeOut(old(Snd()), tb.rcvNxt, now);
              ok == r.Sent? && (ok ==> View() == old(View()).(snd := r.s) && out == r.pkts)
    {
      hide ClearTimer, Postpone, HeapPush, SetTWnd, HeapOrdered, CircularBuffer.Contents, CircularBuffer.Valid;
      timers.ClearAcked(tb.sndUna);
      if timers.nodes == [] {
        return true, [];
      }
      if timers.nodes[0].ms >= now {
        return true, [];
      }
      out := [NodePacket(timers.nodes[0], tb.rcvNxt)];
      var n := timers.Pop();
      timers.Push(NodeRaw(n.pId, n.payload, 2 * tb.rto + now, -1));
      ok := true;
      if |timers.nodes| < 8 {
        ok := timers.PostponeTimer(timers.nodes[0].pId, 2 * tb.rto);
      }
      var _ := tb.sc.SetTWnd();
    }

    // -------------------------------------------------------------- delayed acks

    method AckPacket() returns (p: Packet)
      ensures p == WirePacket(tb.sndNxt, tb.rcvNxt, [])
    {
      p := WirePacket(tb.sndNxt, tb.rcvNxt, []);
    }

    /** processTou::proc_delack */
    method ProcDelack(now: int) returns (ok: bool, out: seq<Packet>)
      requires Valid()
      modifies tb`delackState, acks
      ensures ok ==> Valid()
      ensures var r := FromRcv(old(View()), SendBackAck(old(Rcv()), now));
              ok == r.EndOk? && (ok ==> r == EndOk(View(), out))
    {
      out := [];
      match tb.delackState
      case DEL_ERR => ok := false;
      case DEL_QUE =>
        ok := acks.UpdateAck(false, tb.rcvNxt, now);
        tb.delackState := DEL_XMIT;
      case _ =>
        var p := AckPacket();
        out := [p];
        assert AckPackets(tb.sndNxt, tb.rcvNxt, 1) == out + [];
        ok := acks.UpdateAck(true, tb.rcvNxt, now);
        tb.delackState := DEL_QUE;
    }

    /** timerCk::proc_delack_xmit on node i of the ack deque. */
    method ProcDelackXmit(i: nat, now: int) returns (ok: bool, sent: bool)
      requires Valid() && i < |acks.nodes|
      modifies tb`delackState, acks
      ensures Valid() && |acks.nodes| == old(|acks.nodes|)
      ensures var r := DelackXmit(old(Rcv()).del, i, tb.rcvNxt, now);
              && ok == r.Some?
              && (ok ==> View() == old(View()).(rcv := old(Rcv()).(del := r.value.0)) && sent == r.value.1)
    {
      ok, sent := true, false;
      var n := acks.nodes[i];
      match tb.delackState
      case DEL_IMMED =>
      case DEL_ERR => ok := false;
      case DEL_XMIT =>
        if n.nagleMs < now {
          ok, sent := tb.rcvNxt >= n.pId, true;
          acks.nodes := acks.nodes[i := FreshNode(tb.rcvNxt, now)];
          tb.delackState := DEL_QUEXMIT;
        }
      case _ =>
        if n.pushMs < now {
          ok, sent := tb.rcvNxt >= n.pId, true;
          acks.nodes := acks.nodes[i := FreshNode(tb.rcvNxt, now)];
          tb.delackState := DEL_EXPXMIT;
        }
    }

    /** timerCk::proc_delack: one scan of the ack deque. */
    method TimerProcDelack(now: int) returns (ok: bool, out: seq<Packet>)
      requires Valid()
      modifies tb`delackState, acks
      ensures ok ==> Valid()
      ensures var r := AckTimerScan(old(View()), now);
              ok == r.EndOk? && (ok ==> r == EndOk(View(), out))
    {
      hide DelackXmit, HeapOrdered, CircularBuffer.Contents, CircularBuffer.Valid;
      out := [];
      ghost var all := TimerPass(Rcv().del, 0, tb.rcvNxt, now);
      ghost var n := 0;
      var i := 0;
      while i < |acks.nodes|
        invariant Valid() && i <= |acks.nodes|
        invariant View() == old(View()).(rcv := old(Rcv()).(del := Rcv().del))
        invariant out == AckPackets(tb.sndNxt, tb.rcvNxt, n)
        invariant all == MoreAcks(n, TimerPass(Rcv().del, i, tb.rcvNxt, now))
        decreases |acks.nodes| - i
      {
        var sent;
        ok, sent := ProcDelackXmit(i, now);
        if !ok {
          return false, [];
        }
        if sent {
          var p := AckPacket();
          OneMoreAck(tb.sndNxt, tb.rcvNxt, n);
          out := out + [p];
          n := n + 1;
        }
        i := i + 1;
      }
      ok := true;
    }

    // -------------------------------------------------------------- receiving

    /** putcircbuf on cb_recv: everything or nothing. */
    method PutCircBuf(data: seq<Byte>) returns (n: nat)
      requires Valid()
      modifies tb.cbRecv, tb.cbRecv.buf
      ensures Valid()
      ensures View() == old(View()).(rcv := old(Rcv()).(cb := CbInsert(old(Rcv()).cb, data)))
      ensures n == if CbFits(old(Rcv()).cb, data) then |data| else 0
    {
      n := tb.cbRecv.Insert(data, |data|);
      assert data[..|data|] == data;
    }

    /** do_proc_pkt_rec: store every queued packet that is next in line. */
    method DoProcPktRec() returns (res: RecResult)
      requires Valid()
      modifies tb`minhpRecv, tb`rcvNxt, tb.cbRecv, tb.cbRecv.buf
      ensures Valid()
      ensures var o := Recover(old(tb.minhpRecv), old(tb.rcvNxt), old(Rcv()).cb);
              res == o.res && View() == old(View()).(rcv := old(Rcv()).(heap := o.heap, rcvNxt := o.rcvNxt, cb := o.cb))
    {
      while tb.minhpRecv != []
        invariant Valid()
        invariant View() == old(View()).(rcv := old(Rcv()).(heap := tb.minhpRecv, rcvNxt := tb.rcvNxt, cb := Rcv().cb))
        invariant Recover(tb.minhpRecv, tb.rcvNxt, Rcv().cb)
                  == Recover(old(tb.minhpRecv), old(tb.rcvNxt), old(Rcv()).cb)
        decreases |tb.minhpRecv|
      {
        var top := tb.minhpRecv[0];
        if top.seqNo < tb.rcvNxt {
          return RecAssert;
        } else if top.seqNo == tb.rcvNxt {
          var n := PutCircBuf(top.payload);
          if n == 0 {
            return RecNoRoom;
          }
          tb.rcvNxt := top.seqNo + |top.payload|;
        } else {
          break;
        }
        tb.minhpRecv := tb.minhpRecv[1..];
      }
      res := RecDone;
    }

    /** proc_pkt_rec and the state that follows it: ok is the assertion, done a recovery that has not stalled. */
    method ProcPktRec() returns (ok: bool, done: bool)
      requires Valid()
      modifies tb`minhpRecv, tb`rcvNxt, tb`delackState, tb`recovering, tb.cbRecv, tb.cbRecv.buf
      ensures ok ==> Valid()
      ensures var r := Recovered(old(Rcv()));
              ok == r.Some? && (ok ==> View() == old(View()).(rcv := r.value) && done == !tb.recovering)
    {
      ok, done := true, true;
      if tb.minhpRecv != [] {
        var res := DoProcPktRec();
        tb.delackState := DEL_IMMED;
        ok, done := res != RecAssert, res == RecDone;
      }
      tb.recovering := !done;
    }

    /** pushHpRecvBuf, with k the place among packets of the same sequence number. */
    method PushHpRecvBuf(p: Packet, k: nat)
      requires Valid()
      modifies tb`minhpRecv
      ensures Valid() && View() == old(View()).(rcv := old(Rcv()).(heap := PushPkt(old(tb.minhpRecv), p, k)))
    {
      tb.minhpRecv := PushPkt(tb.minhpRecv, p, k);
    }

    /** processGetPktState; P_EXIT stands for its exit(1). */
    method ProcessGetPktState(p: Packet) returns (s: PState)
      requires Valid()
      ensures s == Classify(View(), p)
    {
      if p.syn {
        return P_SYN;
      } else if p.fin {
        return P_FIN;
      }
      if p.ack && tb.sockstate == ESTABLISHED && |p.payload| == 0 && tb.sndNxt >= p.ackSeq {
        return P_ACK;
      }
      if p.ack && 0 < |p.payload| && p.seqNo == tb.rcvNxt && tb.sockstate == ESTABLISHED {
        return P_MATCH;
      } else if p.ack && 0 < |p.payload| && p.seqNo < tb.rcvNxt && tb.sockstate == ESTABLISHED {
        return P_LESS;
      } else if p.ack && 0 < |p.payload| && p.seqNo > tb.rcvNxt && tb.sockstate == ESTABLISHED {
        return P_MORE;
      }
      s := P_EXIT;
    }

    // -------------------------------------------------------------- application calls

    method TouSend(data: seq<Byte>, len: int, now: int) returns (queued: nat, out: seq<Packet>)
      requires Valid() && len <= |data|
      modifies tb`sndNxt, tb.cbSend, tb.cbSend.buf, tb.sc`sndWnd, timers
      ensures Valid()
      ensures var bytes := data[..Max(len, 0)];
              EndpointModel.TouSend(old(View()), bytes, now) == EndOk(View(), out)
              && queued == if CbFits(old(Snd()).cb, bytes) then |bytes| else 0
    {
      ghost var cb := Snd().cb;
      assert cb + data[..0] == cb;
      queued := tb.cbSend.Insert(data, len);
      out := Send(now);
    }

    method TouRecv(n: int) returns (bytes: seq<Byte>)
      requires Valid()
      modifies tb.cbRecv
      ensures Valid() && (View(), bytes) == EndpointModel.TouRecv(old(View()), n)
    {
      var end;
      bytes, end := tb.cbRecv.GetAt(n);
      ghost var cb := Rcv().cb;
      assert cb[..0] == [] && cb[0..] == cb;
      var dread := tb.cbRecv.Remove(|bytes|);
      ghost var k := if n <= 0 then 0 else Min(n, |cb|);
      assert bytes == cb[..k];
      assert Rcv().cb == cb[k..];
      assert View() == EndpointModel.TouRecv(old(View()), n).0;
      if tb.sockstate == CLOSE_WAIT {
        bytes := [];
      }
    }

    // -------------------------------------------------------------- the state machine of run

    /** State MATCH_EXPECTED_SEQ: the number putcircbuf returns is not looked at. */
    method TakeExpected(p: Packet)
      requires Valid()
      modifies tb`rcvNxt, tb.cbRecv, tb.cbRecv.buf
      ensures Valid() && View() == Taken(old(View()), p)
    {
      tb.rcvNxt := p.seqNo + |p.payload|;
      var _ := PutCircBuf(p.payload);
    }

    /** State MORE_EXPECTED_SEQ. */
    method StoreOutOfOrder(p: Packet, k: nat)
      requires Valid()
      modifies tb`minhpRecv, tb`delackState
      ensures Valid() && View() == Stored(old(View()), p, k)
    {
      PushHpRecvBuf(p, k);
      tb.delackState := DEL_IMMED;
    }

    /** A datagram is waiting and cb_recv has room for the largest one. */
    method MayRead(inbox: seq<Packet>) returns (b: bool)
      requires Valid()
      ensures b && !tb.recovering <==> Gate(View(), inbox)
    {
      var free := tb.cbRecv.GetAvSize();
      b := inbox != [] && free >= RECVBUFSIZE;
    }

    /** State SYN and state FIN. */
    method ControlPacket(p: Packet)
      requires Valid()
      modifies tb`sockstate, tb`rcvNxt
      ensures Valid() && View() == Controlled(old(View()), p)
    {
      if p.syn {
        tb.sockstate := SYN_RECEIVED;
        tb.rcvNxt := p.seqNo + 1;
      } else {
        tb.sockstate := CLOSE_WAIT;
      }
    }

    /** One turn of the state machine, with the packet p at hand; reading is left to Run. */
    method Turn(st: RunState, p: Packet, k: nat, rest: seq<Packet>, now: int, ghost kr: seq<nat>)
      returns (ok: bool, more: seq<Packet>, st': RunState)
      requires Valid() && |kr| == |rest| && st !in {ST_GET, ST_CLEAR, ST_END} && (st == ST_LESS ==> !tb.recovering)
      modifies tb, tb.sc, tb.cbSend, tb.cbRecv, tb.cbRecv.buf, timers, acks
      ensures ok ==> Valid() && Rank(st') < Rank(st)
      ensures ok ==> st' !in {ST_GET, ST_LESS} && (st' == ST_CLEAR ==> !tb.recovering)
      ensures !ok ==> Rem(st, p, k, old(View()), rest, kr, now) == RunAbort
      ensures ok ==> Rem(st, p, k, old(View()), rest, kr, now)
                     == PrependOut(more, Rem(st', p, k, View(), rest, kr, now))
    {
      hide CircularBuffer.Contents, CircularBuffer.Valid, HeapOrdered, SenderModel.AckIn, SendBackAck, RunRead;
      hide Recovered, RecoveryStep, MatchStep, MoreStep, Gated, Ungated, Taken, Stored, Controlled;
      ghost var e := View();
      ok, more := true, [];
      match st
      case ST_CONTROL =>
        ControlPacket(p);
        ControlStep(p, k, e, rest, kr, now);
        st' := ST_END;
      case ST_ACK =>
        ok, more := AckIn(p.ackSeq, now);
        AckStep(p, k, e, rest, kr, now);
        st' := ST_END;
      case ST_MATCH =>
        TakeExpected(p);
        StoreStep(p, k, e, rest, kr, now);
        st' := ST_RECOVERY;
      case ST_MORE =>
        StoreOutOfOrder(p, k);
        StoreStep(p, k, e, rest, kr, now);
        st' := ST_SENDBACK;
      case ST_RECOVERY =>
        var done;
        ok, done := ProcPktRec();
        RecoveryStates(p, k, e, rest, kr, now);
        st' := if done then ST_SENDBACK else ST_NO_SENDBACK;
      case ST_SENDBACK =>
        ok, more := ProcDelack(now);
        SendBackStep(p, k, e, rest, kr, now);
        st' := ST_NO_SENDBACK;
      case ST_LESS =>
        var b := MayRead(rest);
        GateStep(p, k, e, rest, kr, now);
        st' := if b then ST_CLEAR else ST_END;
      case ST_NO_SENDBACK =>
        var b := MayRead(rest);
        GateStep(p, k, e, rest, kr, now);
        st' := if b && !tb.recovering then ST_CLEAR else ST_END;
      if ok && st != ST_ACK && st != ST_SENDBACK {
        PrependNothing(Rem(st', p, k, View(), rest, kr, now));
        assert more == [];
        assert PrependOut([], Rem(st', p, k, View(), rest, kr, now)) == Rem(st, p, k, e, rest, kr, now);
      }
    }

    /** processTou::run over the packets waiting in the socket. It stops on every inbox: each turn either
        reads a packet or moves to a state of lower rank. */
    method Run(inbox: seq<Packet>, ks: seq<nat>, now: int) returns (ok: bool, out: seq<Packet>, rest: seq<Packet>)
      requires Valid() && |ks| == |inbox|
      modifies tb, tb.sc, tb.cbSend, tb.cbRecv, tb.cbRecv.buf, timers, acks
      ensures ok ==> Valid()
      ensures var r := EndpointModel.Run(old(View()), inbox, ks, now);
              ok == r.RunOk? && (ok ==> r == RunOk(View(), out, rest))
    {
      hide EndpointModel.Run, Rem, PrependOut, HeapOrdered, CircularBuffer.Contents, CircularBuffer.Valid;
      hide Snd, Classify, Valid;
      var st := if tb.recovering then ST_RECOVERY else ST_GET;
      var p := WirePacket(0, 0, []);
      var k: nat, kr := 0, ks;
      out, rest := [], inbox;
      ok := true;
      RunStarts(View(), inbox, ks, now, p);
      while st != ST_END
        invariant Valid() && ok && |rest| == |kr|
        invariant st in {ST_GET, ST_CLEAR, ST_LESS} ==> !tb.recovering
        invariant EndpointModel.Run(old(View()), inbox, ks, now)
                  == PrependOut(out, Rem(st, p, k, View(), rest, kr, now))
        decreases |rest|, Rank(st)
      {
        if st == ST_GET || st == ST_CLEAR {
          ReadStep(st, p, k, View(), rest, kr, now, out);
          if rest == [] {
            return;
          }
          p, k := rest[0], kr[0];
          var c := ProcessGetPktState(p);
          if c == P_EXIT {
            return false, [], [];
          }
          rest, kr, st := rest[1..], kr[1..], StateOf(c);
        } else {
          var more, st';
          ok, more, st' := Turn(st, p, k, rest, now, kr);
          if !ok {
            AbortIsFinal(out);
            return false, [], [];
          }
          PrependTwice(out, more, Rem(st', p, k, View(), rest, kr, now));
          out, st := out + more, st';
        }
      }
      EndStep(p, k, View(), rest, kr, now, out);
    }
  }

  // ---------------------------------------------------------------- the states of run

  datatype RunState =
    | ST_GET | ST_CLEAR | ST_CONTROL | ST_ACK | ST_RECOVERY
    | ST_MATCH | ST_LESS | ST_MORE | ST_SENDBACK | ST_NO_SENDBACK | ST_END

  function Rank(s: RunState): nat {
    match s
    case ST_MATCH => 6
    case ST_RECOVERY => 5
    case ST_MORE => 5
    case ST_SENDBACK => 4
    case ST_LESS => 3
    case ST_NO_SENDBACK => 3
    case ST_GET => 2
    case ST_CLEAR => 2
    case ST_CONTROL => 1
    case ST_ACK => 1
    case ST_END => 0
  }

  function StateOf(c: PState): RunState {
    match c
    case P_SYN => ST_CONTROL
    case P_FIN => ST_CONTROL
    case P_ACK => ST_ACK
    case P_MATCH => ST_MATCH
    case P_LESS => ST_LESS
    case P_MORE => ST_MORE
    case P_EXIT => ST_END
  }

  function Controlled(e: Endpoint, p: Packet): Endpoint {
    if p.syn then e.(sock := SYN_RECEIVED, rcv := e.rcv.(rcvNxt := p.seqNo + 1)) else e.(sock := CLOSE_WAIT)
  }

  function Taken(e: Endpoint, p: Packet): Endpoint {
    e.(rcv := e.rcv.(rcvNxt := p.End(), cb := CbInsert(e.rcv.cb, p.payload)))
  }

  function Stored(e: Endpoint, p: Packet, k: nat): Endpoint {
    e.(rcv := e.rcv.(heap := PushPkt(e.rcv.heap, p, k), del := e.rcv.del.(st := DEL_IMMED)))
  }

  function Ungated(o: EndOut, inbox: seq<Packet>): RunOut {
    if o.EndAbort? then RunAbort else RunOk(o.e, o.out, inbox)
  }

  function Gated(o: EndOut, inbox: seq<Packet>, ks: seq<nat>, now: int): RunOut
    requires |ks| == |inbox|
  {
    if o.EndOk? && Gate(o.e, inbox) then PrependOut(o.out, RunRead(o.e, inbox, ks, now)) else Ungated(o, inbox)
  }

  /** What a run in state s, with p the packet at hand, still has to do. */
  function Rem(s: RunState, p: Packet, k: nat, e: Endpoint, inbox: seq<Packet>, ks: seq<nat>, now: int): RunOut
    requires |ks| == |inbox|
  {
    match s
    case ST_GET => RunRead(e, inbox, ks, now)
    case ST_CLEAR => RunRead(e, inbox, ks, now)
    case ST_CONTROL => RunOk(Controlled(e, p), [], inbox)
    case ST_ACK => Ungated(FromSnd(e, SenderModel.AckIn(e.snd, e.rcv.rcvNxt, p.ackSeq, now)), inbox)
    case ST_MATCH => Gated(FromRcv(e, MatchStep(e.rcv, p, now)), inbox, ks, now)
    case ST_MORE => Gated(FromRcv(e, MoreStep(e.rcv, p, k, now)), inbox, ks, now)
    case ST_RECOVERY => Gated(FromRcv(e, RecoveryStep(e.rcv, now)), inbox, ks, now)
    case ST_SENDBACK => Gated(FromRcv(e, SendBackAck(e.rcv, now)), inbox, ks, now)
    case ST_LESS => Gated(EndOk(e, []), inbox, ks, now)
    case ST_NO_SENDBACK => Gated(EndOk(e, []), inbox, ks, now)
    case ST_END => RunOk(e, [], inbox)
  }

  lemma RunStarts(e: Endpoint, inbox: seq<Packet>, ks: seq<nat>, now: int, p: Packet)
    requires |ks| == |inbox|
    ensures EndpointModel.Run(e, inbox, ks, now) ==
            PrependOut([], Rem(if e.rcv.recovering then ST_RECOVERY else ST_GET, p, 0, e, inbox, ks, now))
  {
    hide RunRead, RecoveryStep;
    PrependNothing(EndpointModel.Run(e, inbox, ks, now));
  }

  lemma PrependNothing(r: RunOut)
    ensures PrependOut([], r) == r
  {
    assert r.RunOk? ==> [] + r.out == r.out;
  }

  lemma AbortIsFinal(out: seq<Packet>)
    ensures PrependOut(out, RunAbort) == RunAbort
  {
  }

  lemma PrependTwice(a: seq<Packet>, b: seq<Packet>, r: RunOut)
    ensures PrependOut(a, PrependOut(b, r)) == PrependOut(a + b, r)
  {
    assert r.RunOk? ==> a + (b + r.out) == (a + b) + r.out;
  }

  /** Reading a packet: the state run enters does what is left to do. */
  lemma ReadStep(s: RunState, p: Packet, k: nat, e: Endpoint, inbox: seq<Packet>, ks: seq<nat>, now: int,
                 out: seq<Packet>)
    requires |ks| == |inbox| && (s == ST_GET || s == ST_CLEAR)
    ensures var r := Rem(s, p, k, e, inbox, ks, now);
            if inbox == [] then PrependOut(out, r) == RunOk(e, out, [])
            else if Classify(e, inbox[0]) == P_EXIT then PrependOut(out, r) == RunAbort
            else r == Rem(StateOf(Classify(e, inbox[0])), inbox[0], ks[0], e, inbox[1..], ks[1..], now)
  {
    hide AckIn, MatchStep, MoreStep, Gate;
    if inbox == [] {
      assert out + [] == out;
    } else if Classify(e, inbox[0]) == P_LESS {
      assert AckPackets(e.snd.nxt, e.rcv.rcvNxt, 0) == [];
    }
  }

  lemma ControlStep(p: Packet, k: nat, e: Endpoint, inbox: seq<Packet>, ks: seq<nat>, now: int)
    requires |ks| == |inbox|
    ensures Rem(ST_CONTROL, p, k, e, inbox, ks, now) == Rem(ST_END, p, k, Controlled(e, p), inbox, ks, now)
  {
  }

  lemma AckStep(p: Packet, k: nat, e: Endpoint, inbox: seq<Packet>, ks: seq<nat>, now: int)
    requires |ks| == |inbox|
    ensures var o := SenderModel.AckIn(e.snd, e.rcv.rcvNxt, p.ackSeq, now);
            Rem(ST_ACK, p, k, e, inbox, ks, now) ==
            if o.Abort? then RunAbort
            else PrependOut(o.pkts, Rem(ST_END, p, k, e.(snd := o.s), inbox, ks, now))
  {
    hide AckIn;
    var o := SenderModel.AckIn(e.snd, e.rcv.rcvNxt, p.ackSeq, now);
    assert o.Sent? ==> o.pkts + [] == o.pkts;
  }

  lemma StoreStep(p: Packet, k: nat, e: Endpoint, inbox: seq<Packet>, ks: seq<nat>, now: int)
    requires |ks| == |inbox|
    ensures Rem(ST_MATCH, p, k, e, inbox, ks, now) == Rem(ST_RECOVERY, p, k, Taken(e, p), inbox, ks, now)
    ensures Rem(ST_MORE, p, k, e, inbox, ks, now) == Rem(ST_SENDBACK, p, k, Stored(e, p, k), inbox, ks, now)
  {
    hide RecoveryStep, SendBackAck, RunRead, PrependOut;
  }

  lemma RecoveryStates(p: Packet, k: nat, e: Endpoint, inbox: seq<Packet>, ks: seq<nat>, now: int)
    requires |ks| == |inbox|
    ensures var x := Recovered(e.rcv);
            Rem(ST_RECOVERY, p, k, e, inbox, ks, now) ==
            if x.None? then RunAbort
            else Rem(if x.value.recovering then ST_NO_SENDBACK else ST_SENDBACK,
                     p, k, e.(rcv := x.value), inbox, ks, now)
  {
    hide SendBackAck, RunRead, Recover;
    var x := Recovered(e.rcv);
    if x.Some? && x.value.recovering {
      assert AckPackets(e.snd.nxt, x.value.rcvNxt, 0) == [];
    }
  }

  lemma SendBackStep(p: Packet, k: nat, e: Endpoint, inbox: seq<Packet>, ks: seq<nat>, now: int)
    requires |ks| == |inbox|
    ensures var o := FromRcv(e, SendBackAck(e.rcv, now));
            Rem(ST_SENDBACK, p, k, e, inbox, ks, now) ==
            if o.EndAbort? then RunAbort
            else PrependOut(o.out, Rem(ST_NO_SENDBACK, p, k, o.e, inbox, ks, now))
  {
    hide RunRead, FromRcv, SendBackAck;
    var o := FromRcv(e, SendBackAck(e.rcv, now));
    if o.EndOk? {
      GateStep(p, k, o.e, inbox, ks, now);
      assert o.out + [] == o.out;
    }
  }

  lemma GateStep(p: Packet, k: nat, e: Endpoint, inbox: seq<Packet>, ks: seq<nat>, now: int)
    requires |ks| == |inbox|
    ensures Rem(ST_LESS, p, k, e, inbox, ks, now) == Rem(ST_NO_SENDBACK, p, k, e, inbox, ks, now)
    ensures Rem(ST_LESS, p, k, e, inbox, ks, now) ==
            Rem(if Gate(e, inbox) then ST_CLEAR else ST_END, p, k, e, inbox, ks, now)
  {
    hide RunRead;
    PrependNothing(RunRead(e, inbox, ks, now));
  }

  lemma EndStep(p: Packet, k: nat, e: Endpoint, inbox: seq<Packet>, ks: seq<nat>, now: int, out: seq<Packet>)
    requires |ks| == |inbox|
    ensures PrependOut(out, Rem(ST_END, p, k, e, inbox, ks, now)) == RunOk(e, out, inbox)
  {
    assert out + [] == out;
  }

  /** The outcome of state PKT_RECOVERY before the ack is sent; None is the failed assertion. */
  function Recovered(r: Receiver): Option<Receiver> {
    if r.heap == [] then Some(r.(recovering := false))
    else
      var o := Recover(r.heap, r.rcvNxt, r.cb);
      if o.res == RecAssert then None
      else Some(r.(heap := o.heap, rcvNxt := o.rcvNxt, cb := o.cb, recovering := o.res == RecNoRoom,
                   del := r.del.(st := DEL_IMMED)))
  }

  function MoreAcks(n: nat, r: Option<(Delack, nat)>): Option<(Delack, nat)> {
    if r.None? then None else Some((r.value.0, n + r.value.1))
  }

  lemma {:induction false} OneMoreAck(sndNxt: nat, rcvNxt: nat, n: nat)
    ensures AckPackets(sndNxt, rcvNxt, n) + [WirePacket(sndNxt, rcvNxt, [])] == AckPackets(sndNxt, rcvNxt, n + 1)
  {
    if n > 0 {
      OneMoreAck(sndNxt, rcvNxt, n - 1);
    }
  }

  /** The sender once an ack has been dealt with, before it sends, and what it has retransmitted. */
  function Acknowledged(s: Sender, rcvNxt: nat, ack: nat, now: int): Option<(Sender, seq<Packet>)> {
    if ack == s.una then
      var s1 := s.(cc := SetDWnd(s.cc, true));
      if !CkNumDupack(s1.cc) then Some((s1, []))
      else
        var fr := FastRexmit(s.timers, ack, rcvNxt, s.rto, now);
        if fr.None? then None else Some((s1.(timers := fr.value.0), fr.value.1))
    else if Traps(s.cc) then None
    else
      var s1 := s.(cc := AddWnd(s.cc));
      Some((if ack > s.una then Advance(s1, ack, now) else s1, []))
  }

  lemma AckInParts(s: Sender, rcvNxt: nat, ack: nat, now: int)
    ensures var a := Acknowledged(s, rcvNxt, ack, now);
            SenderModel.AckIn(s, rcvNxt, ack, now) ==
            if a.None? then Abort
            else
              var (s', ps) := SenderModel.Send(a.value.0, rcvNxt, now);
              Sent(s', a.value.1 + ps)
  {
    hide SenderModel.Send, FastRexmit, Advance, SetDWnd, AddWnd;
    var s1 := s.(cc := SetDWnd(s.cc, true));
    assert s1.(timers := s.timers) == s1;
    forall ps: seq<Packet>
      ensures [] + ps == ps
    {
    }
  }

  /** One pass of the loop in send. */
  lemma SendLoopPass(s: Sender, rcvNxt: nat, cnt: int, now: int)
    ensures var sz := SendSize(s);
            var (s1, p) := SendOne(s, rcvNxt, sz, now);
            SendLoop(s, rcvNxt, cnt, now) ==
            if s.cb == [] || (if s.cc.cc == CC_CA then cnt <= 0 else MIN_SEND_SIZE > sz) then (s, [])
            else Onwards([p], SendLoop(s1, rcvNxt, if s.cc.cc == CC_CA then cnt - 1 else cnt, now))
  {
    hide SendOne, SendSize;
  }

  lemma SendOneParts(s: Sender, rcvNxt: nat, sz: nat, now: int, seg: seq<Byte>)
    requires seg == s.cb[..Min(if sz >= SMSS then SMSS else sz, |s.cb|)]
    ensures var n := NodeRaw(s.nxt + |seg|, seg, now + s.rto, now);
            SendOne(s, rcvNxt, sz, now) ==
            (s.(nxt := s.nxt + |seg|, cb := s.cb[|seg|..], timers := HeapPush(s.timers, n)),
             WirePacket(s.nxt, rcvNxt, seg))
  {
    hide HeapPush;
  }

  function Onwards(out: seq<Packet>, r: (Sender, seq<Packet>)): (Sender, seq<Packet>) {
    (r.0, out + r.1)
  }

  lemma OnwardsNone(r: (Sender, seq<Packet>))
    ensures Onwards([], r) == r
  {
    assert [] + r.1 == r.1;
  }

  lemma OnwardsOne(out: seq<Packet>, p: Packet, r: (Sender, seq<Packet>))
    ensures Onwards(out + [p], r) == Onwards(out, Onwards([p], r))
  {
    assert out + [p] + r.1 == out + ([p] + r.1);
  }
}
