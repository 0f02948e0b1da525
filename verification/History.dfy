/** What the connection has done so far, and what a segment of its stream is. */
module History {
  import opened TouTypes

  /** What the connection has done so far: the first sequence number of the stream, every byte
      touSend accepted, every segment boundary, and every data packet transmitted. */
  datatype Hist = Hist(base: nat, st: seq<Byte>, cuts: set<nat>, log: multiset<Packet>)

  /** The bytes of the stream with sequence numbers lo up to hi. */
  function Bytes(h: Hist, lo: nat, hi: nat): seq<Byte> {
    if h.base <= lo <= hi <= h.base + |h.st| then h.st[lo - h.base..hi - h.base] else []
  }

  lemma BytesJoin(h: Hist, a: nat, b: nat, c: nat)
    requires h.base <= a <= b <= c <= h.base + |h.st|
    ensures Bytes(h, a, b) + Bytes(h, b, c) == Bytes(h, a, c)
  {
  }

  lemma BytesCut(h: Hist, a: nat, b: nat, c: nat)
    requires h.base <= a <= b <= c <= h.base + |h.st|
    ensures |Bytes(h, a, c)| == c - a
    ensures Bytes(h, a, c)[..b - a] == Bytes(h, a, b)
    ensures Bytes(h, a, c)[b - a..] == Bytes(h, b, c)
  {
  }

  /** [lo, hi) is one of the segments the stream was cut into, and pl its bytes. */
  ghost predicate IsSeg(h: Hist, lo: nat, hi: nat, pl: seq<Byte>) {
    && h.base <= lo < hi <= h.base + |h.st|
    && hi - lo <= MAX_PAYLOAD
    && lo in h.cuts && hi in h.cuts
    && (forall c :: c in h.cuts ==> c <= lo || hi <= c)
    && pl == Bytes(h, lo, hi)
  }

  ghost predicate DataOk(h: Hist, rn: nat, p: Packet) {
    p == WirePacket(p.seqNo, rn, p.payload) && IsSeg(h, p.seqNo, p.End(), p.payload)
  }

  /** A retransmission of the segment [lo, p.End()) that was cut off at a NUL: the segment's first bytes,
      sent with the sequence numbers of its last ones. */
  ghost predicate MangledAt(h: Hist, rn: nat, p: Packet, lo: nat) {
    && IsSeg(h, lo, p.End(), Bytes(h, lo, p.End()))
    && p == WirePacket(p.seqNo, rn, CStr(Bytes(h, lo, p.End())))
    && lo < p.seqNo
  }

  ghost predicate Mangled(h: Hist, rn: nat, p: Packet) {
    exists lo :: MangledAt(h, rn, p, lo)
  }

  /** What the sender puts on the wire: a segment of the stream, or what is left of one. */
  ghost predicate SentOk(h: Hist, rn: nat, p: Packet) {
    DataOk(h, rn, p) || Mangled(h, rn, p)
  }

  /** A mangled packet ends at a boundary, and starts at none unless nothing is left of it. */
  lemma MangledOffCut(h: Hist, rn: nat, p: Packet)
    requires Mangled(h, rn, p)
    ensures p.End() in h.cuts && p == WirePacket(p.seqNo, rn, p.payload)
    ensures p.payload != [] ==> p.seqNo !in h.cuts
    ensures h.base < p.seqNo && p.End() <= h.base + |h.st|
    ensures |p.payload| <= MAX_PAYLOAD
  {
    var lo :| MangledAt(h, rn, p, lo);
  }

  function Ends(ps: seq<Packet>): set<nat> {
    if ps == [] then {} else {ps[0].End()} + Ends(ps[1..])
  }

  function AddSent(h: Hist, ps: seq<Packet>): Hist {
    h.(cuts := h.cuts + Ends(ps), log := h.log + multiset(ps))
  }

  lemma AddSentCons(h: Hist, p: Packet, ps: seq<Packet>)
    ensures AddSent(AddSent(h, [p]), ps) == AddSent(h, [p] + ps)
  {
    assert Ends([p]) == {p.End()};
    assert ([p] + ps)[1..] == ps;
  }

  /** h' continues h: the stream only grows and new boundaries lie beyond nxt. */
  ghost predicate Ext(h: Hist, h': Hist, nxt: nat) {
    && h'.base == h.base && h.st <= h'.st && h.cuts <= h'.cuts
    && (forall c :: c in h'.cuts ==> c in h.cuts || nxt < c)
  }

  lemma SentExt(h: Hist, h': Hist, nxt: nat, rn: nat, p: Packet)
    requires Ext(h, h', nxt) && SentOk(h, rn, p) && p.End() <= nxt
    ensures SentOk(h', rn, p)
    ensures DataOk(h, rn, p) ==> DataOk(h', rn, p)
    ensures Mangled(h, rn, p) ==> Mangled(h', rn, p)
  {
    if DataOk(h, rn, p) {
      SegExt(h, h', nxt, p.seqNo, p.End(), p.payload);
    }
    if Mangled(h, rn, p) {
      var lo :| MangledAt(h, rn, p, lo);
      SegExt(h, h', nxt, lo, p.End(), Bytes(h, lo, p.End()));
      assert MangledAt(h', rn, p, lo);
    }
  }

  lemma SegExt(h: Hist, h': Hist, nxt: nat, lo: nat, hi: nat, pl: seq<Byte>)
    requires Ext(h, h', nxt) && IsSeg(h, lo, hi, pl) && hi <= nxt
    ensures IsSeg(h', lo, hi, pl)
  {
    var a, b := lo - h.base, hi - h.base;
    assert h'.st[..|h.st|] == h.st;
    assert h'.st[a..b] == h.st[a..b];
  }
}
