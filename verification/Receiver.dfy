/** The receiving half of a socket: out-of-order heap, resumable recovery, and rcv_nxt. */
module ReceiverModel {
  import opened TouTypes
  import opened DelayedAck

  datatype Receiver = Receiver(rcvNxt: nat, heap: seq<Packet>, cb: seq<Byte>, recovering: bool, del: Delack)

  /** The number of acks sent is 0 or 1; each carries the final rcv_nxt. */
  datatype RcvOut = RcvOk(r: Receiver, acks: nat) | RcvAbort

  datatype RecResult = RecDone | RecNoRoom | RecAssert

  datatype Rec = Rec(res: RecResult, heap: seq<Packet>, rcvNxt: nat, cb: seq<Byte>)

  ghost predicate Sorted(h: seq<Packet>) {
    forall i, j :: 0 <= i < j < |h| ==> h[i].seqNo <= h[j].seqNo
  }

  /** A place where p keeps the heap in seq order; among equal numbers any place will do. */
  predicate HeapSlot(h: seq<Packet>, p: Packet, k: nat) {
    && k <= |h|
    && (forall i :: 0 <= i < k ==> h[i].seqNo <= p.seqNo)
    && (forall i :: k <= i < |h| ==> p.seqNo <= h[i].seqNo)
  }

  function FirstSlot(h: seq<Packet>, p: Packet): (k: nat)
    ensures k <= |h|
    decreases |h|
  {
    if h == [] || h[0].seqNo >= p.seqNo then 0 else 1 + FirstSlot(h[1..], p)
  }

  /** minhp_recv.push(p); k says where p lands among packets with its own sequence number. */
  function PushPkt(h: seq<Packet>, p: Packet, k: nat): seq<Packet> {
    var j := if HeapSlot(h, p, k) then k else FirstSlot(h, p);
    h[..j] + [p] + h[j..]
  }

  /** processTou::do_proc_pkt_rec */
  function Recover(heap: seq<Packet>, rcvNxt: nat, cb: seq<Byte>): Rec
    decreases |heap|
  {
    if heap == [] || heap[0].seqNo > rcvNxt then Rec(RecDone, heap, rcvNxt, cb)
    else if heap[0].seqNo < rcvNxt then Rec(RecAssert, heap, rcvNxt, cb)
    else if CbFits(cb, heap[0].payload) then
      Recover(heap[1..], heap[0].End(), cb + heap[0].payload)
    else Rec(RecNoRoom, heap, rcvNxt, cb)
  }

  /** State SENDBACK_ACK of run. */
  function SendBackAck(r: Receiver, now: int): RcvOut {
    var x := ProcDelack(r.del, r.rcvNxt, now);
    if x.None? then RcvAbort else RcvOk(r.(del := x.value.0), if x.value.1 then 1 else 0)
  }

  /** State PKT_RECOVERY of run. */
  function RecoveryStep(r: Receiver, now: int): RcvOut {
    if r.heap == [] then SendBackAck(r.(recovering := false), now)
    else
      var o := Recover(r.heap, r.rcvNxt, r.cb);
      var r1 := r.(heap := o.heap, rcvNxt := o.rcvNxt, cb := o.cb, del := r.del.(st := DEL_IMMED));
      match o.res
      case RecAssert => RcvAbort
      case RecDone => SendBackAck(r1.(recovering := false), now)
      case RecNoRoom => RcvOk(r1.(recovering := true), 0)
  }

  /** State MATCH_EXPECTED_SEQ: rcv_nxt moves first and the result of the insert is not looked at. */
  function MatchStep(r: Receiver, p: Packet, now: int): RcvOut {
    RecoveryStep(r.(rcvNxt := p.End(), cb := CbInsert(r.cb, p.payload)), now)
  }

  /** State MORE_EXPECTED_SEQ. */
  function MoreStep(r: Receiver, p: Packet, k: nat, now: int): RcvOut {
    SendBackAck(r.(heap := PushPkt(r.heap, p, k), del := r.del.(st := DEL_IMMED)), now)
  }

  /** A data packet, by its position relative to rcv_nxt; old data is dropped without an ack. */
  function RcvData(r: Receiver, p: Packet, k: nat, now: int): RcvOut {
    if p.seqNo == r.rcvNxt then MatchStep(r, p, now)
    else if p.seqNo < r.rcvNxt then RcvOk(r, 0)
    else MoreStep(r, p, k, now)
  }
}
