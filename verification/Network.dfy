/** Two sockets after the handshake and the network between them. The application of a sends, the
    application of b receives. Every step of either side is one atomic transition. */
module Network {
  import opened TouTypes
  import opened Congestion
  import opened DelayedAck
  import opened History
  import opened SenderModel
  import opened ReceiverModel
  import opened EndpointModel

  /** data and acks are in flight; h and got record what was sent and what touRecv returned. */
  datatype Sys = Sys(a: Endpoint, b: Endpoint, data: multiset<Packet>, acks: multiset<Packet>, h: Hist, got: seq<Byte>)

  datatype Label =
    | AppSend(bytes: seq<Byte>, now: int)
    | AppRecv(n: int)
    | RecvData(p: Packet, k: nat, now: int)  // b's run handles a packet
    | Resume(now: int)                       // b's run resumes a stalled recovery
    | RecvAck(p: Packet, now: int)           // a's run handles a packet
    | SndTimer(now: int)                     // a's timer thread
    | AckTimer(now: int)                     // b's timer thread
    | LoseData(p: Packet) | LoseAck(p: Packet)
    | DupData(p: Packet) | DupAck(p: Packet)

  datatype Outcome = Running(s: Sys) | Aborted

  predicate Enabled(s: Sys, l: Label) {
    match l
    case AppSend(_, now) => now > 0
    case AppRecv(_) => true
    case RecvData(p, _, now) => p in s.data && !s.b.rcv.recovering && now > 0
    case Resume(now) => s.b.rcv.recovering && now > 0
    case RecvAck(p, now) => p in s.acks && !s.a.rcv.recovering && now > 0
    case SndTimer(now) => now > 0
    case AckTimer(now) => now > 0
    case LoseData(p) => p in s.data
    case LoseAck(p) => p in s.acks
    case DupData(p) => p in s.data
    case DupAck(p) => p in s.acks
  }

  /** a has taken a step: what it transmits enters the network and the history. */
  function StepA(s: Sys, o: EndOut): Outcome {
    if o.EndAbort? then Aborted
    else Running(s.(a := o.e, data := s.data + multiset(o.out), h := AddSent(s.h, o.out)))
  }

  function StepB(s: Sys, o: EndOut): Outcome {
    if o.EndAbort? then Aborted
    else Running(s.(b := o.e, acks := s.acks + multiset(o.out)))
  }

  function Accept(s: Sys, bytes: seq<Byte>): Hist {
    if CbFits(s.a.snd.cb, bytes) then s.h.(st := s.h.st + bytes) else s.h
  }

  function Next(s: Sys, l: Label): Outcome {
    match l
    case AppSend(bytes, now) => StepA(s.(h := Accept(s, bytes)), TouSend(s.a, bytes, now))
    case AppRecv(n) =>
      var (b, bytes) := TouRecv(s.b, n);
      Running(s.(b := b, got := s.got + bytes))
    case RecvData(p, k, now) => StepB(s.(data := s.data - multiset{p}), HandlePacket(s.b, p, k, now))
    case Resume(now) => StepB(s, ResumeRun(s.b, now))
    case RecvAck(p, now) => StepA(s.(acks := s.acks - multiset{p}), HandlePacket(s.a, p, 0, now))
    case SndTimer(now) => StepA(s, SndTimerScan(s.a, now))
    case AckTimer(now) => StepB(s, AckTimerScan(s.b, now))
    case LoseData(p) => Running(s.(data := s.data - multiset{p}))
    case LoseAck(p) => Running(s.(acks := s.acks - multiset{p}))
    case DupData(p) => Running(s.(data := s.data + multiset{p}))
    case DupAck(p) => Running(s.(acks := s.acks + multiset{p}))
  }

  /** The state touConnect and touAccept leave behind: isn is a's first data sequence number, ack b's. */
  function Init(isn: nat, ack: nat, awndA: nat, awndB: nat): Sys {
    Sys(Endpoint(ESTABLISHED, InitSender(isn, awndA), InitReceiver(ack)),
        Endpoint(ESTABLISHED, InitSender(ack, awndB), InitReceiver(isn)),
        multiset{}, multiset{}, Hist(isn, [], {isn}, multiset{}), [])
  }

  /** Any state a handshake can leave behind. */
  ghost predicate Started(s: Sys) {
    exists isn, ack, awndA, awndB :: s == Init(isn, ack, awndA, awndB)
  }

  function InitSender(isn: nat, awnd: nat): Sender {
    Sender(isn, isn, [], [], InitCong(awnd), 3000, 3000)
  }

  function InitReceiver(isn: nat): Receiver {
    Receiver(isn, [], [], false, INIT_DELACK)
  }

  /** A history of the system: None if some label was not enabled. */
  function Exec(s: Sys, ls: seq<Label>): Option<Outcome>
    decreases |ls|
  {
    if ls == [] then Some(Running(s))
    else if !Enabled(s, ls[0]) then None
    else if Next(s, ls[0]).Aborted? then Some(Aborted)
    else Exec(Next(s, ls[0]).s, ls[1..])
  }
}
