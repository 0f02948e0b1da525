/** One socket: classification of incoming packets, one pass of processTou::run, the
    application calls and the two timer scans. */
module EndpointModel {
  import opened TouTypes
  import opened DelayedAck
  import opened SenderModel
  import opened ReceiverModel

  datatype SockState = ESTABLISHED | SYN_RECEIVED | CLOSE_WAIT | OTHER_STATE

  datatype Endpoint = Endpoint(sock: SockState, snd: Sender, rcv: Receiver)

  datatype PState = P_SYN | P_FIN | P_ACK | P_MATCH | P_LESS | P_MORE | P_EXIT

  /** processTou::processGetPktState; P_EXIT is its exit(1). */
  function Classify(e: Endpoint, p: Packet): PState {
    if p.syn then P_SYN
    else if p.fin then P_FIN
    else if p.ack && e.sock == ESTABLISHED && p.payload == [] && e.snd.nxt >= p.ackSeq then P_ACK
    else if p.ack && p.payload != [] && e.sock == ESTABLISHED then
      if p.seqNo == e.rcv.rcvNxt then P_MATCH
      else if p.seqNo < e.rcv.rcvNxt then P_LESS
      else P_MORE
    else P_EXIT
  }

  datatype EndOut = EndOk(e: Endpoint, out: seq<Packet>) | EndAbort

  /** n pure acks, all carrying rcv_nxt. */
  function AckPackets(sndNxt: nat, rcvNxt: nat, n: nat): seq<Packet> {
    if n == 0 then [] else [WirePacket(sndNxt, rcvNxt, [])] + AckPackets(sndNxt, rcvNxt, n - 1)
  }

  function FromRcv(e: Endpoint, o: RcvOut): EndOut {
    if o.RcvAbort? then EndAbort
    else EndOk(e.(rcv := o.r), AckPackets(e.snd.nxt, o.r.rcvNxt, o.acks))
  }

  function FromSnd(e: Endpoint, o: SendOut): EndOut {
    if o.Abort? then EndAbort else EndOk(e.(snd := o.s), o.pkts)
  }

  /** What run does with one packet it has read. */
  function HandlePacket(e: Endpoint, p: Packet, k: nat, now: int): EndOut {
    match Classify(e, p)
    case P_SYN => EndOk(e.(sock := SYN_RECEIVED, rcv := e.rcv.(rcvNxt := p.seqNo + 1)), [])
    case P_FIN => EndOk(e.(sock := CLOSE_WAIT), [])
    case P_ACK => FromSnd(e, AckIn(e.snd, e.rcv.rcvNxt, p.ackSeq, now))
    case P_EXIT => EndAbort
    case _ => FromRcv(e, RcvData(e.rcv, p, k, now))
  }

  /** A run that finds runstate == PKT_RECOVERY. */
  function ResumeRun(e: Endpoint, now: int): EndOut {
    FromRcv(e, RecoveryStep(e.rcv, now))
  }

  /** touSend: queue everything or nothing, then send what the window allows. */
  function TouSend(e: Endpoint, data: seq<Byte>, now: int): EndOut {
    var (s, ps) := Send(e.snd.(cb := CbInsert(e.snd.cb, data)), e.rcv.rcvNxt, now);
    EndOk(e.(snd := s), ps)
  }

  /** touRecv: the new state and the bytes handed to the application. */
  function TouRecv(e: Endpoint, n: int): (Endpoint, seq<Byte>) {
    var k := if n <= 0 then 0 else Min(n, |e.rcv.cb|);
    (e.(rcv := e.rcv.(cb := e.rcv.cb[k..])), if e.sock == CLOSE_WAIT then [] else e.rcv.cb[..k])
  }

  /** timerCk::proc_sndpkt */
  function SndTimerScan(e: Endpoint, now: int): EndOut {
    FromSnd(e, TimeOut(e.snd, e.rcv.rcvNxt, now))
  }

  /** timerCk::proc_delack */
  function AckTimerScan(e: Endpoint, now: int): EndOut {
    var x := TimerPass(e.rcv.del, 0, e.rcv.rcvNxt, now);
    if x.None? then EndAbort
    else EndOk(e.(rcv := e.rcv.(del := x.value.0)), AckPackets(e.snd.nxt, e.rcv.rcvNxt, x.value.1))
  }

  // ---------------------------------------------------------------- a whole run

  /** `rest` is what is left in the socket when the run returns. */
  datatype RunOut = RunOk(e: Endpoint, out: seq<Packet>, rest: seq<Packet>) | RunAbort

  /** The test before PROCESS_CLEAR_GET_PKT. */
  predicate Gate(e: Endpoint, inbox: seq<Packet>) {
    inbox != [] && MAX_CIRCULAR_BUF - |e.rcv.cb| >= RECVBUFSIZE && !e.rcv.recovering
  }

  function PrependOut(out: seq<Packet>, r: RunOut): RunOut {
    if r.RunAbort? then RunAbort else r.(out := out + r.out)
  }

  /** run from the moment it reads a packet; ks places ties in the out-of-order heap. */
  function RunRead(e: Endpoint, inbox: seq<Packet>, ks: seq<nat>, now: int): RunOut
    requires |ks| == |inbox|
    decreases |inbox|
  {
    if inbox == [] then RunOk(e, [], [])
    else
      var o := HandlePacket(e, inbox[0], ks[0], now);
      if o.EndAbort? then RunAbort
      else if Classify(e, inbox[0]) in {P_MATCH, P_LESS, P_MORE} && Gate(o.e, inbox[1..]) then
        PrependOut(o.out, RunRead(o.e, inbox[1..], ks[1..], now))
      else RunOk(o.e, o.out, inbox[1..])
  }

  /** processTou::run on the packets waiting in the socket. */
  function Run(e: Endpoint, inbox: seq<Packet>, ks: seq<nat>, now: int): RunOut
    requires |ks| == |inbox|
  {
    if !e.rcv.recovering then RunRead(e, inbox, ks, now)
    else
      var o := ResumeRun(e, now);
      if o.EndAbort? then RunAbort
      else if Gate(o.e, inbox) then PrependOut(o.out, RunRead(o.e, inbox, ks, now))
      else RunOk(o.e, o.out, inbox)
  }

  /** How many packets of RunRead are next in line and do not fit. */
  function Lost(e: Endpoint, inbox: seq<Packet>, ks: seq<nat>, now: int): nat
    requires |ks| == |inbox|
    decreases |inbox|
  {
    if inbox == [] then 0
    else
      var p := inbox[0];
      var o := HandlePacket(e, p, ks[0], now);
      var here := if Classify(e, p) == P_MATCH && !CbFits(e.rcv.cb, p.payload) then 1 else 0;
      if o.EndOk? && Classify(e, p) in {P_MATCH, P_LESS, P_MORE} && Gate(o.e, inbox[1..]) then
        here + Lost(o.e, inbox[1..], ks[1..], now)
      else here
  }

  /** Every packet read through PROCESS_CLEAR_GET_PKT is stored when it is next in line; only the first
      packet of a run, which no test guards, can be dropped. */
  lemma {:induction false} OnlyFirstCanBeLost(e: Endpoint, inbox: seq<Packet>, ks: seq<nat>, now: int)
    requires |ks| == |inbox|
    requires forall i :: 0 <= i < |inbox| ==> |inbox[i].payload| <= MAX_PAYLOAD
    ensures Lost(e, inbox, ks, now) ==
            if inbox != [] && Classify(e, inbox[0]) == P_MATCH && !CbFits(e.rcv.cb, inbox[0].payload) then 1 else 0
    ensures MAX_CIRCULAR_BUF - |e.rcv.cb| >= 2000 ==> Lost(e, inbox, ks, now) == 0
    decreases |inbox|
  {
    if inbox != [] {
      var o := HandlePacket(e, inbox[0], ks[0], now);
      if o.EndOk? {
        OnlyFirstCanBeLost(o.e, inbox[1..], ks[1..], now);
      }
    }
  }
}
