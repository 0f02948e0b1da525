/** The sending half of a socket: the send window, the heap of in-flight timer nodes,
    acknowledgement processing, timeout and fast retransmit. Times are milliseconds. */
module SenderModel {
  import opened TouTypes
  import opened Congestion
  import opened History

  /** node_t of one connection: pId is the sequence number after the segment's last byte,
      xmit the time it was sent, or -1 once it has been retransmitted. */
  datatype NodeRaw = NodeRaw(pId: nat, payload: seq<Byte>, ms: int, xmit: int)

  type Node = n: NodeRaw | |n.payload| <= n.pId witness NodeRaw(0, [], 0, 0)

  datatype Sender = Sender(una: nat, nxt: nat, cb: seq<Byte>, timers: seq<Node>, cc: Cong, rto: nat, rtt: nat)

  datatype SendOut = Sent(s: Sender, pkts: seq<Packet>) | Abort

  function Start(n: Node): nat {
    n.pId - |n.payload|
  }

  /** timerCk::sendpkt */
  function NodePacket(n: Node, rcvNxt: nat): Packet {
    WirePacket(Start(n), rcvNxt, n.payload)
  }

  /** The copy constructor of node_t, which every heap operation goes through. */
  function CopyNode(n: Node): Node {
    NodeRaw(n.pId, CStr(n.payload), n.ms, n.xmit)
  }

  /** A push onto the heap ordered by pId. */
  function HeapPush(h: seq<Node>, n: Node): (r: seq<Node>)
    ensures |r| == |h| + 1
    decreases |h|
  {
    if h == [] || n.pId < h[0].pId then [CopyNode(n)] + h
    else [h[0]] + HeapPush(h[1..], n)
  }

  function SendSize(s: Sender): nat {
    var wnd := GetWnd(s.cc);
    if s.una + wnd >= s.nxt then s.una + wnd - s.nxt else 0
  }

  function CalNumCaXmit(sndSz: nat): nat {
    var n := sndSz / SMSS;
    if n % 2 == 1 then (if sndSz % SMSS != 0 then n + 1 else n - 1) else n
  }

  /** One pass of the loop in processTou::send: pop at most one segment, transmit it, start its timer. */
  function SendOne(s: Sender, rcvNxt: nat, sz: nat, now: int): (r: (Sender, Packet))
    ensures |r.0.cb| <= |s.cb| && (0 < sz && 0 < |s.cb| ==> |r.0.cb| < |s.cb|)
  {
    var len := Min(if sz >= SMSS then SMSS else sz, |s.cb|);
    var seg := s.cb[..len];
    var node := NodeRaw(s.nxt + len, seg, now + s.rto, now);
    (s.(nxt := s.nxt + len, cb := s.cb[len..], timers := HeapPush(s.timers, node)),
     WirePacket(s.nxt, rcvNxt, seg))
  }

  function SendLoop(s: Sender, rcvNxt: nat, cnt: int, now: int): (Sender, seq<Packet>)
    decreases |s.cb|, Max(cnt, 0)
  {
    var sz := SendSize(s);
    if |s.cb| == 0 then (s, [])
    else if s.cc.cc == CC_CA && cnt <= 0 then (s, [])
    else if s.cc.cc != CC_CA && MIN_SEND_SIZE > sz then (s, [])
    else
      var (s1, p) := SendOne(s, rcvNxt, sz, now);
      var (s2, ps) := SendLoop(s1, rcvNxt, if s.cc.cc == CC_CA then cnt - 1 else cnt, now);
      (s2, [p] + ps)
  }

  /** processTou::send */
  function Send(s: Sender, rcvNxt: nat, now: int): (Sender, seq<Packet>) {
    SendLoop(s, rcvNxt, CalNumCaXmit(SendSize(s)), now)
  }

  /** timerCk::proc_clear_ackedpkt of the timer thread. */
  function ClearTimer(ts: seq<Node>, una: nat): seq<Node>
    decreases |ts|
  {
    if ts == [] || ts[0].pId > una then ts else ClearTimer(ts[1..], una)
  }

  /** timerCk::proc_clear_ackedpkt of the ack path, with the node handed to cal_rto, if any. */
  function ClearByAck(ts: seq<Node>, una: nat): (seq<Node>, Option<Node>)
    decreases |ts|
  {
    if ts == [] || ts[0].pId > una then (ts, None)
    else if ts[0].pId < una then ClearByAck(ts[1..], una)
    else (ts[1..], Some(ts[0]))
  }

  /** timerCk::cal_rto, with alpha 1/8 and beta 2 in exact arithmetic: the new (rto, rtt). */
  function CalRto(rto: nat, rtt: nat, n: Option<Node>, recvT: int): (nat, nat) {
    if n.None? || n.value.xmit < 0 then (rto, rtt)
    else
      var cur := Max(recvT - n.value.xmit, 10);
      var rtt' := rtt / 8 + cur * 7 / 8;
      (2 * rtt', rtt')
  }

  /** timerCk::rexmit_for_dup_ack; None is its exit(1). */
  function FastRexmit(ts: seq<Node>, pid: nat, rcvNxt: nat, rto: nat, now: int): Option<(seq<Node>, seq<Packet>)>
    decreases |ts|
  {
    if ts == [] then Some(([], []))
    else if Start(ts[0]) == pid then
      var n := NodeRaw(ts[0].pId, ts[0].payload, now + rto, -1);
      Some((HeapPush(ts[1..], n), [NodePacket(ts[0], rcvNxt)]))
    else if Start(ts[0]) < pid then FastRexmit(ts[1..], pid, rcvNxt, rto, now)
    else None
  }

  /** timerCk::postpone_timer on a heap in pId order; None is its failed assertion. */
  function Postpone(ts: seq<Node>, th: nat, rto: nat): Option<seq<Node>>
    decreases |ts|
  {
    if ts == [] then Some([])
    else if ts[0].pId > th && ts[0].xmit <= 0 then None
    else
      var rest := Postpone(ts[1..], th, rto);
      if rest.None? then None
      else if ts[0].pId < th then rest
      else if ts[0].pId == th then Some([CopyNode(ts[0])] + rest.value)
      else Some([CopyNode(NodeRaw(ts[0].pId, ts[0].payload, ts[0].xmit + rto, ts[0].xmit))] + rest.value)
  }

  /** The ack branch of processTou::run: proc_ack, then delete_timer or setdwnd with a possible
      fast retransmit, then send. */
  function AckIn(s: Sender, rcvNxt: nat, ack: nat, now: int): SendOut {
    if ack == s.una then
      var s1 := s.(cc := SetDWnd(s.cc, true));
      var fr := if CkNumDupack(s1.cc) then FastRexmit(s.timers, ack, rcvNxt, s.rto, now) else Some((s.timers, []));
      if fr.None? then Abort
      else
        var (s2, ps) := Send(s1.(timers := fr.value.0), rcvNxt, now);
        Sent(s2, fr.value.1 + ps)
    else if Traps(s.cc) then Abort
    else
      var s1 := s.(cc := AddWnd(s.cc));
      var (s2, ps) := Send(if ack > s.una then Advance(s1, ack, now) else s1, rcvNxt, now);
      Sent(s2, ps)
  }

  /** snd_una moves to a newer ack: acked nodes leave the heap and the estimator sees the exact match. */
  function Advance(s: Sender, ack: nat, now: int): Sender {
    var (ts, sample) := ClearByAck(s.timers, ack);
    var (rto, rtt) := CalRto(s.rto, s.rtt, sample, now);
    s.(una := ack, timers := ts, rto := rto, rtt := rtt)
  }

  /** timerCk::proc_sndpkt */
  function TimeOut(s: Sender, rcvNxt: nat, now: int): SendOut {
    var ts := ClearTimer(s.timers, s.una);
    if ts == [] || ts[0].ms >= now then Sent(s.(timers := ts), [])
    else
      var n := NodeRaw(ts[0].pId, ts[0].payload, 2 * s.rto + now, -1);
      var ts1 := HeapPush(ts[1..], n);
      var ts2 := if |ts1| < 8 then Postpone(ts1, ts1[0].pId, 2 * s.rto) else Some(ts1);
      if ts2.None? then Abort
      else Sent(s.(timers := ts2.value, cc := SetTWnd(s.cc)), [NodePacket(ts[0], rcvNxt)])
  }

  // ---------------------------------------------------------------- NUL bytes

  /** The front node holds less than the segment at snd_una: the copy stopped at a NUL. */
  predicate FrontCut(s: Sender) {
    s.timers != [] && Start(s.timers[0]) != s.una
  }

  /** The ack asks for a fast retransmit of a segment whose copy was cut short. */
  predicate RexmitExits(s: Sender, ack: nat) {
    ack == s.una && CkNumDupack(SetDWnd(s.cc, true)) && FrontCut(s)
  }

  // ---------------------------------------------------------------- invariant

  /** The nodes, in heap order, cover [lo, hi) segment by segment; each holds its segment as copied. */
  ghost predicate Tiles(h: Hist, ts: seq<Node>, lo: nat, hi: nat)
    decreases |ts|
  {
    if ts == [] then lo == hi
    else
      && IsSeg(h, lo, ts[0].pId, Bytes(h, lo, ts[0].pId))
      && ts[0].payload == CStr(Bytes(h, lo, ts[0].pId))
      && Tiles(h, ts[1..], ts[0].pId, hi)
  }

  /** Every transmission was a segment or what is left of one; only segments at or below snd_una went
      out twice unmangled. */
  ghost predicate LogOk(h: Hist, rn: nat, una: nat, nxt: nat) {
    forall p :: p in h.log ==>
      SentOk(h, rn, p) && p.End() <= nxt && (h.log[p] >= 2 ==> p.seqNo <= una || Mangled(h, rn, p))
  }

  /** Where the segment of node i starts. */
  function From(ts: seq<Node>, una: nat, i: nat): nat
    requires i < |ts|
  {
    if i == 0 then una else ts[i - 1].pId
  }

  /** The first transmission of the segment [lo, hi). */
  function Orig(h: Hist, rn: nat, lo: nat, hi: nat): Packet {
    WirePacket(lo, rn, Bytes(h, lo, hi))
  }

  /** How often the segment [lo, n.pId) was transmitted: as it was, and as its node re-sends it. */
  function Sends(h: Hist, rn: nat, lo: nat, n: Node): nat {
    var o, q := Orig(h, rn, lo, n.pId), NodePacket(n, rn);
    h.log[o] + if q == o then 0 else h.log[q]
  }

  ghost predicate KarnAt(h: Hist, rn: nat, lo: nat, n: Node, i: nat) {
    && h.log[Orig(h, rn, lo, n.pId)] >= 1
    && (n.xmit > 0 ==> Sends(h, rn, lo, n) == 1)
    && (n.xmit <= 0 ==> i == 0 && n.xmit == -1 && Sends(h, rn, lo, n) >= 2)
  }

  /** Every node's segment was transmitted; the node carries a send time exactly while that happened once, and only
      the front node can have lost it. */
  ghost predicate KarnOk(h: Hist, rn: nat, una: nat, ts: seq<Node>) {
    forall i :: 0 <= i < |ts| ==> KarnAt(h, rn, From(ts, una, i), ts[i], i)
  }

  ghost predicate CutsOk(h: Hist, una: nat, nxt: nat) {
    && h.base <= una <= nxt <= h.base + |h.st|
    && h.base in h.cuts && una in h.cuts && nxt in h.cuts
    && (forall c :: c in h.cuts ==> h.base <= c <= nxt)
  }

  ghost predicate SInv(h: Hist, s: Sender, rn: nat) {
    && CongInv(s.cc)
    && CutsOk(h, s.una, s.nxt)
    && s.cb == Bytes(h, s.nxt, h.base + |h.st|)
    && Tiles(h, s.timers, s.una, s.nxt)
    && LogOk(h, rn, s.una, s.nxt)
    && KarnOk(h, rn, s.una, s.timers)
  }

  lemma {:induction false} TilesExt(h: Hist, h': Hist, nxt: nat, ts: seq<Node>, lo: nat, hi: nat)
    requires Ext(h, h', nxt) && Tiles(h, ts, lo, hi) && hi <= nxt
    ensures Tiles(h', ts, lo, hi)
    ensures lo <= hi
    decreases |ts|
  {
    if ts != [] {
      TilesExt(h, h', nxt, ts[1..], ts[0].pId, hi);
      SegExt(h, h', nxt, lo, ts[0].pId, Bytes(h, lo, ts[0].pId));
    }
  }

  lemma {:induction false} TilesSnoc(h: Hist, ts: seq<Node>, lo: nat, hi: nat, n: Node)
    requires Tiles(h, ts, lo, hi) && IsSeg(h, hi, n.pId, Bytes(h, hi, n.pId)) && n.payload == CStr(Bytes(h, hi, n.pId))
    ensures Tiles(h, ts + [n], lo, n.pId)
    decreases |ts|
  {
    if ts == [] {
      assert ts + [n] == [n];
    } else {
      TilesSnoc(h, ts[1..], ts[0].pId, hi, n);
      assert (ts + [n])[1..] == ts[1..] + [n];
    }
  }

  /** Node i holds a copy of a segment that starts where node i - 1 ends. */
  lemma {:induction false} TilesAt(h: Hist, ts: seq<Node>, lo: nat, hi: nat, i: nat)
    requires Tiles(h, ts, lo, hi) && i < |ts|
    ensures IsSeg(h, From(ts, lo, i), ts[i].pId, Bytes(h, From(ts, lo, i), ts[i].pId))
    ensures ts[i].payload == CStr(Bytes(h, From(ts, lo, i), ts[i].pId))
    ensures lo <= From(ts, lo, i) < ts[i].pId <= hi
    decreases |ts|
  {
    if i > 0 {
      TilesAt(h, ts[1..], ts[0].pId, hi, i - 1);
    }
    if |ts| > 1 {
      TilesAt(h, ts[1..], ts[0].pId, hi, 0);
    }
  }

  lemma {:induction false} TilesIncreasing(h: Hist, ts: seq<Node>, lo: nat, hi: nat, i: nat, j: nat)
    requires Tiles(h, ts, lo, hi) && i < j < |ts|
    ensures ts[i].pId <= From(ts, lo, j) && ts[i].pId < ts[j].pId
    decreases j
  {
    TilesAt(h, ts, lo, hi, j);
    if i < j - 1 {
      TilesIncreasing(h, ts, lo, hi, i, j - 1);
      TilesAt(h, ts, lo, hi, j - 1);
    }
  }

  /** A node starts where its segment does exactly if the segment has no NUL; otherwise it starts later. */
  lemma StartIff(h: Hist, lo: nat, n: Node)
    requires IsSeg(h, lo, n.pId, Bytes(h, lo, n.pId)) && n.payload == CStr(Bytes(h, lo, n.pId))
    ensures Start(n) >= lo && (Start(n) == lo <==> NulFree(Bytes(h, lo, n.pId)))
    ensures Start(n) == lo ==> n.payload == Bytes(h, lo, n.pId)
  {
    var s := Bytes(h, lo, n.pId);
    assert |s| == n.pId - lo;
    CStrLength(s);
    CStrIdentityIff(s);
  }

  /** What a node re-sends is its segment or what is left of it. */
  lemma NodeSent(h: Hist, rn: nat, lo: nat, n: Node)
    requires IsSeg(h, lo, n.pId, Bytes(h, lo, n.pId)) && n.payload == CStr(Bytes(h, lo, n.pId))
    ensures var p := NodePacket(n, rn);
            && p.End() == n.pId && SentOk(h, rn, p)
            && (Start(n) == lo ==> DataOk(h, rn, p) && p == Orig(h, rn, lo, n.pId))
            && (Start(n) != lo ==> Mangled(h, rn, p))
  {
    StartIff(h, lo, n);
    var p := NodePacket(n, rn);
    assert p.End() == n.pId;
    if Start(n) == lo {
      assert p == Orig(h, rn, lo, n.pId);
      hide NodePacket, Bytes, CStr, Start;
      assert DataOk(h, rn, p);
    } else {
      hide NodePacket, Bytes, CStr, IsSeg;
      assert MangledAt(h, rn, p, lo);
    }
  }

  lemma {:induction false} PushAtEnd(h: seq<Node>, n: Node)
    requires forall i :: 0 <= i < |h| ==> h[i].pId <= n.pId
    ensures HeapPush(h, n) == h + [CopyNode(n)]
    decreases |h|
  {
    if h != [] {
      PushAtEnd(h[1..], n);
    }
  }

  lemma PushAtFront(h: seq<Node>, n: Node)
    requires h != [] ==> n.pId < h[0].pId
    ensures HeapPush(h, n) == [CopyNode(n)] + h
  {
  }
}
