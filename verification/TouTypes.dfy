/** Constants, packets and byte strings shared by every component. */
module TouTypes {

  newtype Byte = x: int | 0 <= x < 256

  const SMSS: nat := 1456
  const MIN_SEND_SIZE: nat := 1400
  const RECVBUFSIZE: nat := 2000
  const HEADER_SIZE: nat := 16
  /** The largest payload one recvfrom can carry. */
  const MAX_PAYLOAD: nat := RECVBUFSIZE - HEADER_SIZE
  const MAX_CIRCULAR_BUF: nat := 6291456

  datatype Option<+T> = None | Some(value: T)

  datatype Packet = Packet(seqNo: nat, ackSeq: nat, syn: bool, fin: bool, ack: bool, payload: seq<Byte>) {
    function End(): nat {
      seqNo + |payload|
    }
  }

  /** What gen_pkt and sendpkt put on the wire: only the ACK flag is set. */
  function WirePacket(seqNo: nat, ackSeq: nat, payload: seq<Byte>): Packet {
    Packet(seqNo, ackSeq, false, false, true, payload)
  }

  function Min(a: int, b: int): int {
    if a < b then a else b
  }

  function Max(a: int, b: int): int {
    if a < b then b else a
  }

  predicate NulFree(s: seq<Byte>) {
    0 !in s
  }

  /** `new string(s.data())`: the copy stops at the first NUL byte. */
  function CStr(s: seq<Byte>): (r: seq<Byte>)
    ensures r <= s
    ensures NulFree(r)
    ensures |r| < |s| ==> s[|r|] == 0
  {
    if s == [] || s[0] == 0 then [] else [s[0]] + CStr(s[1..])
  }

  /** The C-string copy is the identity exactly on NUL-free payloads. */
  lemma {:induction false} CStrIdentityIff(s: seq<Byte>)
    ensures CStr(s) == s <==> NulFree(s)
  {
    if s != [] && s[0] != 0 {
      CStrIdentityIff(s[1..]);
      assert s == [s[0]] + s[1..];
    }
  }

  lemma CStrTwice(s: seq<Byte>)
    ensures CStr(CStr(s)) == CStr(s)
  {
    CStrIdentityIff(CStr(s));
  }

  /** The copy is as long as the original exactly if nothing was cut off. */
  lemma CStrLength(s: seq<Byte>)
    ensures |CStr(s)| == |s| <==> NulFree(s)
  {
    CStrIdentityIff(s);
    assert s[..|s|] == s;
  }

  /** The all-or-nothing insert of a socket's circular buffer (see CircBuf.CircularBuffer.Insert). */
  function CbInsert(cb: seq<Byte>, data: seq<Byte>): (r: seq<Byte>) {
    if CbFits(cb, data) then cb + data else cb
  }

  predicate CbFits(cb: seq<Byte>, data: seq<Byte>) {
    0 < |data| < MAX_CIRCULAR_BUF - |cb|
  }
}
