/** The ToU header: touPkg's printer and parser, byte for byte. */
module HeaderCodec {
  import opened TouTypes

  const TWO_32: nat := 0x1_0000_0000
  const MAGIC: nat := 0x7194B32E

  type Nibble = x: nat | x < 16
  type Window = x: nat | x < 65536

  datatype Flags = Flags(res: bool, cwr: bool, ece: bool, ack: bool, psh: bool, rst: bool, syn: bool, fin: bool)

  /** touPkg: the header fields, the payload and its separate length field. */
  datatype Pkg = Pkg(sn: nat, mag: nat, ackSeq: nat, doff: Nibble, dres: Nibble, fl: Flags, window: Window,
                     buf: seq<Byte>, buflen: int)

  /** toString reads buflen bytes of a non-empty payload; other lengths are out of bounds in the original. */
  predicate Printable(p: Pkg) {
    p.buf == [] || 0 <= p.buflen <= |p.buf|
  }

  /** The n low bytes of x in memory order. */
  function Le(x: nat, n: nat): (s: seq<Byte>)
    ensures |s| == n
  {
    if n == 0 then [] else [(x % 256) as Byte] + Le(x / 256, n - 1)
  }

  function FromLe(s: seq<Byte>): nat {
    if s == [] then 0 else s[0] as nat + 256 * FromLe(s[1..])
  }

  function Pow256(n: nat): (r: nat)
    ensures r > 0
  {
    if n == 0 then 1 else 256 * Pow256(n - 1)
  }

  /** Byte 12: (doff << 4) | (dres & 0x0011), where dres has four bits. */
  function OffsetByte(doff: Nibble, dres: Nibble): Byte {
    (doff * 16 + dres % 2) as Byte
  }

  function Bit(b: bool): (n: nat)
    ensures n <= 1
  {
    if b then 1 else 0
  }

  /** Byte 13: one bit per flag. */
  function FlagByte(f: Flags): (n: nat)
    ensures n < 256
  {
    128 * Bit(f.res) + 64 * Bit(f.cwr) + 32 * Bit(f.ece) + 16 * Bit(f.ack)
    + 8 * Bit(f.psh) + 4 * Bit(f.rst) + 2 * Bit(f.syn) + Bit(f.fin)
  }

  function FlagsOf(n: nat): Flags {
    Flags(n / 128 % 2 == 1, n / 64 % 2 == 1, n / 32 % 2 == 1, n / 16 % 2 == 1,
          n / 8 % 2 == 1, n / 4 % 2 == 1, n / 2 % 2 == 1, n % 2 == 1)
  }

  function Body(p: Pkg): seq<Byte>
    requires Printable(p)
  {
    if p.buf == [] then [] else p.buf[..p.buflen]
  }

  /** touPkg::toString */
  function Print(p: Pkg): (s: seq<Byte>)
    requires Printable(p)
    ensures |s| == HEADER_SIZE + |Body(p)|
  {
    Le(p.sn, 4) + Le(p.mag, 4) + Le(p.ackSeq, 4) + [OffsetByte(p.doff, p.dres), FlagByte(p.fl) as Byte]
    + Le(p.window, 2) + Body(p)
  }

  /** touPkg(std::string): doff and dres keep whatever the fields held. */
  function Parse(s: seq<Byte>, doff: Nibble, dres: Nibble): Pkg
    requires HEADER_SIZE <= |s|
  {
    FromLeRange(s[14..16]);
    Pkg(FromLe(s[0..4]), FromLe(s[4..8]), FromLe(s[8..12]), doff, dres, FlagsOf(s[13] as nat), FromLe(s[14..16]),
        s[16..], |s| - HEADER_SIZE)
  }

  // ---------------------------------------------------------------- integers and flag bits

  lemma {:induction false} FromLeRange(s: seq<Byte>)
    ensures FromLe(s) < Pow256(|s|)
    ensures |s| == 2 ==> FromLe(s) < 65536
    ensures |s| == 4 ==> FromLe(s) < TWO_32
  {
    if s != [] {
      FromLeRange(s[1..]);
    }
    assert Pow256(2) == 256 * Pow256(1);
    assert Pow256(4) == 256 * (256 * Pow256(2));
  }

  lemma {:induction false} LeInverse(x: nat, n: nat)
    ensures FromLe(Le(x, n)) == x % Pow256(n)
  {
    if n > 0 {
      LeInverse(x / 256, n - 1);
      ModSplit(x, Pow256(n - 1));
    }
  }

  lemma ModSplit(x: nat, m: nat)
    requires m > 0
    ensures x % 256 + 256 * (x / 256 % m) == x % (256 * m)
  {
    var q, r := x / 256 / m, x % 256 + 256 * (x / 256 % m);
    assert x == 256 * (x / 256) + x % 256;
    assert x / 256 == q * m + x / 256 % m;
    assert x == (256 * m) * q + r;
    QuotientUnique(x, 256 * m, q, r);
  }

  lemma QuotientUnique(x: nat, d: nat, q: nat, r: nat)
    requires r < d && x == d * q + r
    ensures x % d == r
  {
    var q', r' := x / d, x % d;
    assert d * q + r == d * q' + r';
    assert d * (q - q') == r' - r;
    if q > q' {
      AtLeastOnce(d, q - q');
    } else if q < q' {
      AtLeastOnce(d, q' - q);
    }
  }

  lemma AtLeastOnce(d: nat, k: nat)
    requires k >= 1
    ensures d * k >= d
  {
    assert d * k == d + d * (k - 1);
  }

  lemma {:induction false} FromLeInverse(s: seq<Byte>)
    ensures Le(FromLe(s), |s|) == s
  {
    if s != [] {
      FromLeInverse(s[1..]);
      LowByte(s[0], FromLe(s[1..]));
      assert s == [s[0]] + s[1..];
    }
  }

  lemma LowByte(b: Byte, y: nat)
    ensures var x := b as nat + 256 * y;
            x % 256 == b as nat && x / 256 == y
  {
  }

  lemma BitsOfSum(a: nat, b: nat, c: nat, d: nat, e: nat, f: nat, g: nat, h: nat)
    requires a <= 1 && b <= 1 && c <= 1 && d <= 1 && e <= 1 && f <= 1 && g <= 1 && h <= 1
    ensures var n := 128 * a + 64 * b + 32 * c + 16 * d + 8 * e + 4 * f + 2 * g + h;
            && n / 128 % 2 == a && n / 64 % 2 == b && n / 32 % 2 == c && n / 16 % 2 == d
            && n / 8 % 2 == e && n / 4 % 2 == f && n / 2 % 2 == g && n % 2 == h
  {
    var n := 128 * a + 64 * b + 32 * c + 16 * d + 8 * e + 4 * f + 2 * g + h;
    assert n / 2 == 64 * a + 32 * b + 16 * c + 8 * d + 4 * e + 2 * f + g;
    assert n / 4 == 32 * a + 16 * b + 8 * c + 4 * d + 2 * e + f;
    assert n / 8 == 16 * a + 8 * b + 4 * c + 2 * d + e;
    assert n / 16 == 8 * a + 4 * b + 2 * c + d;
    assert n / 32 == 4 * a + 2 * b + c;
    assert n / 64 == 2 * a + b;
    assert n / 128 == a;
  }

  lemma DigitsOfFlagByte(f: Flags)
    ensures var n := FlagByte(f);
            && n / 128 % 2 == Bit(f.res) && n / 64 % 2 == Bit(f.cwr)
            && n / 32 % 2 == Bit(f.ece) && n / 16 % 2 == Bit(f.ack)
            && n / 8 % 2 == Bit(f.psh) && n / 4 % 2 == Bit(f.rst) && n / 2 % 2 == Bit(f.syn) && n % 2 == Bit(f.fin)
  {
    hide Bit;
    BitsOfSum(Bit(f.res), Bit(f.cwr), Bit(f.ece), Bit(f.ack), Bit(f.psh), Bit(f.rst), Bit(f.syn), Bit(f.fin));
  }

  lemma FlagsInverse(f: Flags)
    ensures FlagsOf(FlagByte(f)) == f
  {
    hide FlagByte;
    DigitsOfFlagByte(f);
  }

  lemma BinaryDigits(n: nat)
    requires n < 256
    ensures n == 128 * (n / 128 % 2) + 64 * (n / 64 % 2) + 32 * (n / 32 % 2) + 16 * (n / 16 % 2)
                 + 8 * (n / 8 % 2) + 4 * (n / 4 % 2) + 2 * (n / 2 % 2) + n % 2
  {
    assert n / 4 == n / 2 / 2;
    assert n / 8 == n / 4 / 2;
    assert n / 16 == n / 8 / 2;
    assert n / 32 == n / 16 / 2;
    assert n / 64 == n / 32 / 2;
    assert n / 128 == n / 64 / 2;
  }

  lemma FlagByteOf(a: nat, b: nat, c: nat, d: nat, e: nat, f: nat, g: nat, h: nat)
    requires a <= 1 && b <= 1 && c <= 1 && d <= 1 && e <= 1 && f <= 1 && g <= 1 && h <= 1
    ensures FlagByte(Flags(a == 1, b == 1, c == 1, d == 1, e == 1, f == 1, g == 1, h == 1)) ==
            128 * a + 64 * b + 32 * c + 16 * d + 8 * e + 4 * f + 2 * g + h
  {
  }

  lemma FlagByteInverse(n: nat)
    requires n < 256
    ensures FlagByte(FlagsOf(n)) == n
  {
    hide FlagByte;
    FlagByteOf(n / 128 % 2, n / 64 % 2, n / 32 % 2, n / 16 % 2, n / 8 % 2, n / 4 % 2, n / 2 % 2, n % 2);
    BinaryDigits(n);
  }

  // ---------------------------------------------------------------- round trips

  lemma FieldsOfPrint(p: Pkg)
    requires Printable(p)
    ensures var s := Print(p);
            && s[0..4] == Le(p.sn, 4) && s[4..8] == Le(p.mag, 4) && s[8..12] == Le(p.ackSeq, 4)
            && s[12] == OffsetByte(p.doff, p.dres) && s[13] == FlagByte(p.fl) as Byte
            && s[14..16] == Le(p.window, 2) && s[16..] == Body(p)
  {
    hide Le, Body, FlagByte, OffsetByte;
  }

  lemma FourBytes(s: seq<Byte>)
    requires |s| == 4
    ensures FromLe(s) == s[0] as nat + 256 * s[1] as nat + 65536 * s[2] as nat + 16777216 * s[3] as nat
  {
    assert FromLe(s[1..]) == s[1] as nat + 256 * FromLe(s[1..][1..]);
    assert FromLe(s[1..][1..]) == s[2] as nat + 256 * FromLe(s[1..][1..][1..]);
    assert FromLe(s[1..][1..][1..]) == s[3] as nat + 256 * FromLe([]);
  }

  lemma TwoBytes(s: seq<Byte>)
    requires |s| == 2
    ensures FromLe(s) == s[0] as nat + 256 * s[1] as nat
  {
    assert FromLe(s[1..]) == s[1] as nat + 256 * FromLe([]);
  }

  /** The bytes from position i on hold the low 32 bits of x, the lowest byte first. */
  predicate WordAt(s: seq<Byte>, i: nat, x: nat)
    requires i + 4 <= |s|
  {
    s[i] as nat + 256 * s[i + 1] as nat + 65536 * s[i + 2] as nat + 16777216 * s[i + 3] as nat == x % 0x1_0000_0000
  }

  /** The layout of the header: sequence number, magic number and acknowledgement number as words of four bytes, the
      data offset in the high half of byte 12, the flags from 0x80 down to 0x01 in byte 13, the window in two bytes,
      and then the payload. */
  lemma Layout(p: Pkg)
    requires Printable(p)
    ensures var s := Print(p);
            && WordAt(s, 0, p.sn) && WordAt(s, 4, p.mag) && WordAt(s, 8, p.ackSeq)
            && s[12] as nat / 16 == p.doff && s[12] as nat % 16 == p.dres % 2
            && s[13] as nat == (if p.fl.res then 0x80 else 0) + (if p.fl.cwr then 0x40 else 0)
                               + (if p.fl.ece then 0x20 else 0) + (if p.fl.ack then 0x10 else 0)
                               + (if p.fl.psh then 0x08 else 0) + (if p.fl.rst then 0x04 else 0)
                               + (if p.fl.syn then 0x02 else 0) + (if p.fl.fin then 0x01 else 0)
            && s[14] as nat + 256 * s[15] as nat == p.window
            && s[16..] == if p.buf == [] then [] else p.buf[..p.buflen]
  {
    FieldsOfPrint(p);
    hide Print, Le, FromLe;
    var s := Print(p);
    WordIs(s, 0, p.sn);
    WordIs(s, 4, p.mag);
    WordIs(s, 8, p.ackSeq);
    WordInverse(p.window);
    TwoBytes(s[14..16]);
  }

  lemma WordIs(s: seq<Byte>, i: nat, x: nat)
    requires i + 4 <= |s| && s[i..i + 4] == Le(x, 4)
    ensures WordAt(s, i, x)
  {
    hide Le, FromLe;
    WordInverse(x);
    FourBytes(s[i..i + 4]);
    var w := s[i..i + 4];
    assert w[0] == s[i] && w[1] == s[i + 1] && w[2] == s[i + 2] && w[3] == s[i + 3];
  }

  lemma WordInverse(x: nat)
    ensures FromLe(Le(x, 4)) == x % TWO_32
    ensures FromLe(Le(x, 2)) == x % 65536
  {
    LeInverse(x, 4);
    LeInverse(x, 2);
    assert Pow256(2) == 256 * Pow256(1);
    assert Pow256(4) == 256 * (256 * Pow256(2));
  }

  /** Parsing what was printed recovers all eight flags and the window, the low 32 bits of the three words, and
      exactly the bytes buflen counts; the data offset and the reserved bits are not read back. */
  lemma ParsePrint(p: Pkg, doff: Nibble, dres: Nibble)
    requires Printable(p)
    ensures Parse(Print(p), doff, dres) ==
            Pkg(p.sn % TWO_32, p.mag % TWO_32, p.ackSeq % TWO_32, doff, dres, p.fl, p.window, Body(p), |Body(p)|)
  {
    FieldsOfPrint(p);
    hide Print, Le, FromLe, FlagsOf, FlagByte, Body;
    WordInverse(p.sn);
    WordInverse(p.mag);
    WordInverse(p.ackSeq);
    WordInverse(p.window);
    FlagsInverse(p.fl);
  }

  /** A packet survives the wire, except for its data offset and reserved bits, exactly if its words fit
      in 32 bits and its length field counts its payload. */
  lemma SurvivesIff(p: Pkg, doff: Nibble, dres: Nibble)
    requires Printable(p)
    ensures Parse(Print(p), doff, dres) == p.(doff := doff, dres := dres) <==>
            p.sn < TWO_32 && p.mag < TWO_32 && p.ackSeq < TWO_32 && p.buflen == |p.buf|
  {
    hide Parse, Print;
    ParsePrint(p, doff, dres);
    assert p.buf != [] ==> |Body(p)| == p.buflen;
    assert p.buflen == |p.buf| ==> Body(p) == p.buf;
  }

  /** Two packets that survive the wire print alike only if they agree on everything but doff and dres. */
  lemma PrinterInjective(p: Pkg, q: Pkg)
    requires Printable(p) && Printable(q) && Print(p) == Print(q)
    requires p.sn < TWO_32 && p.mag < TWO_32 && p.ackSeq < TWO_32 && p.buflen == |p.buf|
    requires q.sn < TWO_32 && q.mag < TWO_32 && q.ackSeq < TWO_32 && q.buflen == |q.buf|
    ensures p == q.(doff := p.doff, dres := p.dres)
  {
    hide Parse, Print;
    SurvivesIff(p, 0, 0);
    SurvivesIff(q, 0, 0);
  }

  /** Printing what was parsed gives back every byte of a datagram but byte 12. */
  lemma PrintParse(s: seq<Byte>, doff: Nibble, dres: Nibble)
    requires HEADER_SIZE <= |s|
    ensures Printable(Parse(s, doff, dres))
    ensures Print(Parse(s, doff, dres)) == s[12 := OffsetByte(doff, dres)]
  {
    var p := Parse(s, doff, dres);
    assert Body(p) == s[16..];
    Recompose(s, OffsetByte(doff, dres));
    hide Le, FromLe, FlagsOf, FlagByte, OffsetByte, Body;
    FromLeInverse(s[0..4]);
    FromLeInverse(s[4..8]);
    FromLeInverse(s[8..12]);
    FromLeInverse(s[14..16]);
    FlagByteInverse(s[13] as nat);
  }

  lemma Recompose(s: seq<Byte>, x: Byte)
    requires HEADER_SIZE <= |s|
    ensures s[12 := x] == s[0..4] + s[4..8] + s[8..12] + [x, s[13]] + s[14..16] + s[16..]
  {
  }

  // ---------------------------------------------------------------- the packets the engine sends

  /** What gen_pkt, sendack and sendpkt build: putHeaderSeq, the ACK flag, and the payload; w is the
      window field, which a data packet never sets. */
  function ToPkg(p: Packet, w: Window): Pkg {
    Pkg(p.seqNo, MAGIC, p.ackSeq, 0, 0, Flags(false, false, false, p.ack, false, false, p.syn, p.fin), w,
        p.payload, |p.payload|)
  }

  function ToPacket(p: Pkg): Packet
  {
    Packet(p.sn, p.ackSeq, p.fl.syn, p.fl.fin, p.fl.ack, p.buf)
  }

  /** The network of this model may carry packets instead of datagrams: below 2^32, what the peer parses is
      the packet that was sent. */
  lemma DatagramCarriesPacket(p: Packet, w: Window, doff: Nibble, dres: Nibble)
    requires p.seqNo < TWO_32 && p.ackSeq < TWO_32
    ensures |Print(ToPkg(p, w))| == HEADER_SIZE + |p.payload|
    ensures ToPacket(Parse(Print(ToPkg(p, w)), doff, dres)) == p
  {
    hide Parse, Print;
    SurvivesIff(ToPkg(p, w), doff, dres);
    assert Body(ToPkg(p, w)) == p.payload;
  }

  // ---------------------------------------------------------------- in place

  /** touPkg as an object: the parser assigns its fields, the printer appends to a string. */
  class TouPkg {
    var sn: nat
    var mag: nat
    var ackSeq: nat
    var doff: Nibble
    var dres: Nibble
    var fl: Flags
    var window: Window
    var buf: seq<Byte>
    var buflen: int

    ghost function View(): Pkg
      reads this
    {
      Pkg(sn, mag, ackSeq, doff, dres, fl, window, buf, buflen)
    }

    /** touPkg(const char*, int), then putHeaderSeq and the ACK flag. */
    constructor (data: seq<Byte>, seqNo: nat, ack: nat)
      ensures View() == ToPkg(WirePacket(seqNo, ack, data), window)
    {
      doff, dres := 0, 0;
      fl := Flags(false, false, false, true, false, false, false, false);
      sn, ackSeq, mag := seqNo, ack, MAGIC;
      buf, buflen := data, |data|;
    }

    /** touPkg(std::string) */
    method Assign(content: seq<Byte>)
      requires HEADER_SIZE <= |content|
      modifies this
      ensures View() == Parse(content, old(doff), old(dres))
    {
      FromLeRange(content[14..16]);
      sn := FromLe(content[0..4]);
      mag := FromLe(content[4..8]);
      ackSeq := FromLe(content[8..12]);
      fl := FlagsOf(content[13] as nat);
      window := FromLe(content[14..16]);
      buflen := |content| - HEADER_SIZE;
      if buflen > 0 {
        buf := content[16..];
      } else {
        buf := [];
      }
    }

    /** One bit per flag that is on; no two flags share a bit, so OR is addition. */
    method FlagBits() returns (n: nat)
      ensures n == FlagByte(fl)
    {
      n := 0;
      if fl.res { n := n + 0x80; }
      if fl.cwr { n := n + 0x40; }
      assert n == 0x80 * Bit(fl.res) + 0x40 * Bit(fl.cwr);
      if fl.ece { n := n + 0x20; }
      if fl.ack { n := n + 0x10; }
      assert n == 0x80 * Bit(fl.res) + 0x40 * Bit(fl.cwr) + 0x20 * Bit(fl.ece) + 0x10 * Bit(fl.ack);
      if fl.psh { n := n + 0x08; }
      if fl.rst { n := n + 0x04; }
      assert n == 0x80 * Bit(fl.res) + 0x40 * Bit(fl.cwr) + 0x20 * Bit(fl.ece) + 0x10 * Bit(fl.ack)
                  + 0x08 * Bit(fl.psh) + 0x04 * Bit(fl.rst);
      if fl.syn { n := n + 0x02; }
      if fl.fin { n := n + 0x01; }
    }

    method ToString() returns (content: seq<Byte>)
      requires Printable(View())
      ensures content == Print(View())
    {
      content := Le(sn, 4);
      content := content + Le(mag, 4);
      content := content + Le(ackSeq, 4);
      content := content + [OffsetByte(doff, dres)];
      var flags := FlagBits();
      content := content + [flags as Byte];
      content := content + Le(window, 2);
      if |buf| > 0 {
        content := content + buf[..buflen];
      }
    }
  }
}
