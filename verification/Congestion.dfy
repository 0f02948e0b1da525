/** The ssca class: slow start, congestion avoidance, fast retransmit (sections 3.1 and 3.2 of RFC 5681). */
module Congestion {
  import opened TouTypes

  const WND_CAP: nat := MAX_CIRCULAR_BUF / 2
  const REXMT_THRESH: nat := 3
  const MAX_SSTHRESH: nat := 2147483647

  datatype CcState = CC_ERR | CC_SS | CC_CA | CC_FR

  datatype Cong = Cong(cc: CcState, cwnd: nat, awnd: nat, ssthresh: nat, dup: nat)

  function CkSize(wnd: nat): nat {
    if wnd > WND_CAP then WND_CAP else wnd
  }

  /** TOU_SMSS * TOU_SMSS / snd_cwnd in integer division: what one new ack adds in avoidance. */
  function AvoidanceStep(cwnd: nat): (q: nat)
    requires cwnd > 0
    ensures q * cwnd <= SMSS * SMSS < (q + 1) * cwnd
  {
    SMSS * SMSS / cwnd
  }

  /** The state in which ssca::addwnd divides by snd_cwnd == 0. */
  predicate Traps(c: Cong) {
    c.cwnd == 0 && (c.cc == CC_CA || (c.cc == CC_SS && c.cwnd >= c.ssthresh))
  }

  function AddWnd(c: Cong): Cong
    requires !Traps(c)
  {
    match c.cc
    case CC_ERR => c
    case CC_SS =>
      if c.cwnd < c.ssthresh then c.(cwnd := CkSize(c.cwnd + SMSS), dup := 0)
      else c.(cc := CC_CA, cwnd := CkSize(c.cwnd + AvoidanceStep(c.cwnd)), dup := 0)
    case CC_CA => c.(cwnd := CkSize(c.cwnd + AvoidanceStep(c.cwnd)), dup := 0)
    case CC_FR => c.(cc := CC_CA, cwnd := CkSize(c.ssthresh), dup := 0)
  }

  function GetWnd(c: Cong): nat {
    CkSize(Min(c.cwnd, c.awnd))
  }

  function SetTWnd(c: Cong): Cong {
    match c.cc
    case CC_ERR => c
    case _ => c.(cc := CC_SS, ssthresh := Max(c.cwnd / 2, 2 * SMSS), cwnd := SMSS, dup := 0)
  }

  function SetDWnd(c: Cong, ackIsUna: bool): Cong {
    var d := if ackIsUna then c.dup + 1 else 1;
    match c.cc
    case CC_ERR => c
    case CC_FR => c.(dup := d, cwnd := CkSize(c.cwnd + SMSS))
    case _ =>
      if d >= REXMT_THRESH then
        var th := Max(c.cwnd / 2, 2 * SMSS);
        c.(cc := CC_FR, dup := d, ssthresh := th, cwnd := th + 3 * SMSS)
      else c.(dup := d)
  }

  /** sockTb::ck_num_dupack: the test that fires a fast retransmit. */
  predicate CkNumDupack(c: Cong) {
    c.dup == REXMT_THRESH
  }

  /** The state after the ssca constructor and the set-up in touConnect/touAccept. */
  function InitCong(awnd: nat): Cong {
    Cong(CC_SS, 2 * SMSS, awnd, MAX_SSTHRESH, 0)
  }

  predicate CongInv(c: Cong) {
    && c.cc != CC_ERR
    && SMSS <= c.cwnd <= WND_CAP
    && 2 * SMSS <= c.ssthresh
    && (c.cc == CC_CA ==> 2 * SMSS <= c.cwnd)
    && (c.cc == CC_FR ==> 5 * SMSS <= c.cwnd)
    && (c.cc == CC_FR <==> c.dup >= REXMT_THRESH)
  }

  /** What `run` and the timer thread do to the window: an ack other than snd_una, an ack
      equal to snd_una, or a retransmission timeout. */
  datatype CcEvent = AckMoves | AckDup | TimedOut

  function CcNext(c: Cong, e: CcEvent): Cong
    requires !Traps(c)
  {
    match e
    case AckMoves => AddWnd(c)
    case AckDup => SetDWnd(c, true)
    case TimedOut => SetTWnd(c)
  }

  lemma CcStepInv(c: Cong, e: CcEvent)
    requires CongInv(c)
    ensures !Traps(c) && CongInv(CcNext(c, e))
    ensures CcNext(c, e).awnd == c.awnd
  {
  }

  /** A whole history of window events; None is the division by zero. */
  function CcRun(c: Cong, es: seq<CcEvent>): Option<Cong>
    decreases |es|
  {
    if es == [] then Some(c)
    else if Traps(c) then None
    else CcRun(CcNext(c, es[0]), es[1..])
  }

  lemma {:induction false} CongestionInvariant(c: Cong, es: seq<CcEvent>)
    requires CongInv(c)
    ensures CcRun(c, es).Some?
    ensures var r := CcRun(c, es).value;
            && SMSS <= r.cwnd <= MAX_CIRCULAR_BUF / 2
            && 2 * SMSS <= r.ssthresh
            && (r.cc == CC_FR <==> r.dup >= REXMT_THRESH)
            && GetWnd(r) <= r.cwnd && GetWnd(r) <= r.awnd
            && CongInv(r)
    decreases |es|
  {
    if es != [] {
      CcStepInv(c, es[0]);
      CongestionInvariant(CcNext(c, es[0]), es[1..]);
    }
  }

  /** setdwnd keeps "recovering iff three duplicates counted" exactly when it is not handed,
      during recovery, an ack other than snd_una. */
  lemma FrIffThreeKeptIff(c: Cong, ackIsUna: bool)
    requires CongInv(c)
    ensures var c' := SetDWnd(c, ackIsUna);
            (c'.cc == CC_FR <==> c'.dup >= REXMT_THRESH) <==> (ackIsUna || c.cc != CC_FR)
  {
  }

  /** How many events of a history make `run` call rexmit_for_dup_ack. */
  function Fires(c: Cong, es: seq<CcEvent>): nat
    decreases |es|
  {
    if es == [] || Traps(c) then 0
    else
      var c' := CcNext(c, es[0]);
      (if es[0] == AckDup && CkNumDupack(c') then 1 else 0) + Fires(c', es[1..])
  }

  function Entries(c: Cong, es: seq<CcEvent>): nat
    decreases |es|
  {
    if es == [] || Traps(c) then 0
    else
      var c' := CcNext(c, es[0]);
      (if c.cc != CC_FR && c'.cc == CC_FR then 1 else 0) + Entries(c', es[1..])
  }

  /** One fast retransmit per entry into recovery, over every history. */
  lemma {:induction false} FiresOncePerEpisode(c: Cong, es: seq<CcEvent>)
    requires CongInv(c)
    ensures Fires(c, es) == Entries(c, es)
    decreases |es|
  {
    if es != [] {
      CcStepInv(c, es[0]);
      FiresOncePerEpisode(CcNext(c, es[0]), es[1..]);
    }
  }

  /** A burst of n duplicate acks alone fires at most one retransmit, and exactly one when it reaches the threshold. */
  lemma {:induction false} DupBurst(c: Cong, n: nat)
    requires CongInv(c)
    ensures Fires(c, seq(n, i => AckDup)) == if c.cc != CC_FR && c.dup + n >= REXMT_THRESH then 1 else 0
    decreases n
  {
    var es := seq(n, i => AckDup);
    if n > 0 {
      CcStepInv(c, AckDup);
      assert es[1..] == seq(n - 1, i => AckDup);
      DupBurst(CcNext(c, AckDup), n - 1);
    }
  }

  /** k new acks in congestion avoidance. */
  function AvoidK(c: Cong, k: nat): Cong
    requires c.cc == CC_CA && c.cwnd > 0
    decreases k
  {
    if k == 0 then c
    else
      var c' := AddWnd(c);
      AvoidGrows(c);
      AvoidK(c', k - 1)
  }

  lemma AvoidGrows(c: Cong)
    requires c.cc == CC_CA && c.cwnd > 0
    ensures var c' := AddWnd(c);
            c'.cc == CC_CA && c'.cwnd > 0
            && c'.cwnd == CkSize(c.cwnd + AvoidanceStep(c.cwnd))
  {
  }

  lemma MulMono(a: int, b: int, x: int)
    requires a <= b && 0 <= x
    ensures a * x <= b * x
  {
  }

  lemma Accumulate(k: nat, q: nat, q': nat, w: nat, w': nat, r: nat)
    requires 0 < k && q' <= q && w' <= w + q && r <= w' + (k - 1) * q'
    ensures r <= w + k * q
  {
    MulMono(q', q, k - 1);
    assert k * q == (k - 1) * q + q;
  }

  lemma MulCancel(a: int, b: int, x: int)
    requires a * x < b * x && 0 <= x
    ensures a < b
  {
    if b <= a {
      MulMono(b, a, x);
    }
  }

  lemma StepAntitone(x: nat, y: nat)
    requires 0 < x <= y
    ensures AvoidanceStep(y) <= AvoidanceStep(x)
  {
    var q, p := AvoidanceStep(y), AvoidanceStep(x);
    MulMono(x, y, q);
    MulCancel(q, p + 1, x);
  }

  lemma {:induction false} AvoidKBound(c: Cong, k: nat)
    requires c.cc == CC_CA && 0 < c.cwnd <= WND_CAP
    ensures AvoidK(c, k).cc == CC_CA
    ensures c.cwnd <= AvoidK(c, k).cwnd <= WND_CAP
    ensures AvoidK(c, k).cwnd <= c.cwnd + k * AvoidanceStep(c.cwnd)
    decreases k
  {
    if k > 0 {
      var c' := AddWnd(c);
      AvoidGrows(c);
      AvoidKBound(c', k - 1);
      StepAntitone(c.cwnd, c'.cwnd);
      Accumulate(k, AvoidanceStep(c.cwnd), AvoidanceStep(c'.cwnd), c.cwnd, c'.cwnd, AvoidK(c, k).cwnd);
    }
  }

  /** A window's worth of new acks, c.cwnd / SMSS of them, opens the window by at most one segment. */
  lemma AvoidanceIsLinear(c: Cong)
    requires c.cc == CC_CA && 0 < c.cwnd <= WND_CAP
    ensures AvoidK(c, c.cwnd / SMSS).cwnd <= c.cwnd + SMSS
  {
    var k, q := c.cwnd / SMSS, AvoidanceStep(c.cwnd);
    AvoidKBound(c, k);
    LinearBound(k, q, c.cwnd);
  }

  lemma LinearBound(k: nat, q: nat, w: nat)
    requires k * SMSS <= w && q * w <= SMSS * SMSS
    ensures k * q <= SMSS
  {
    MulMono(k * SMSS, w, q);
    assert (k * SMSS) * q == (k * q) * SMSS;
    MulCancel(k * q, SMSS + 1, SMSS);
  }

  lemma SumWithStep(x: nat)
    requires 0 < x <= SMSS * SMSS
    ensures x + AvoidanceStep(x) <= SMSS * SMSS + 1
  {
    var m, q := SMSS * SMSS, AvoidanceStep(x);
    SquareGap(m, x);
    MulCancel(q, m + 2 - x, x);
  }

  lemma SquareGap(m: nat, x: nat)
    requires 0 < x <= m
    ensures m < (m + 2 - x) * x
  {
    MulMono(0, x - 1, m - x);
    assert (m + 2 - x) * x - m == (x - 1) * (m - x) + x;
  }

  /** Integer division stops avoidance growth: it never takes the window past SMSS^2 + 1,
      and at SMSS^2 + 1 no number of acks moves it again. */
  lemma {:induction false} AvoidanceFixpoint(c: Cong, k: nat)
    requires c.cc == CC_CA && 0 < c.cwnd <= SMSS * SMSS + 1
    ensures AvoidK(c, k).cwnd <= SMSS * SMSS + 1
    ensures c.cwnd == SMSS * SMSS + 1 ==> AvoidK(c, k).cwnd == c.cwnd
    decreases k
  {
    if k > 0 {
      AvoidGrows(c);
      if c.cwnd <= SMSS * SMSS {
        SumWithStep(c.cwnd);
      } else {
        MulCancel(AvoidanceStep(c.cwnd), 1, c.cwnd);
      }
      AvoidanceFixpoint(AddWnd(c), k - 1);
    }
  }

  // ---------------------------------------------------------------- whole episodes

  function Acks(k: nat): seq<CcEvent> {
    seq(k, i => AckMoves)
  }

  function Dups(n: nat): seq<CcEvent> {
    seq(n, i => AckDup)
  }

  lemma {:induction false} CcRunConcat(c: Cong, es: seq<CcEvent>, fs: seq<CcEvent>)
    ensures CcRun(c, es + fs) == if CcRun(c, es).None? then None else CcRun(CcRun(c, es).value, fs)
    decreases |es|
  {
    if es == [] {
      assert es + fs == fs;
    } else if !Traps(c) {
      assert (es + fs)[1..] == es[1..] + fs;
      CcRunConcat(CcNext(c, es[0]), es[1..], fs);
    }
  }

  /** Slow start opens the window by one segment per new ack, as long as it starts each ack below ssthresh. */
  lemma {:induction false} SlowStartRun(c: Cong, k: nat)
    requires CongInv(c) && c.cc == CC_SS && c.dup == 0 && c.cwnd + k * SMSS <= WND_CAP
    requires k > 0 ==> c.cwnd + (k - 1) * SMSS < c.ssthresh
    ensures CcRun(c, Acks(k)) == Some(c.(cwnd := c.cwnd + k * SMSS))
    decreases k
  {
    if k > 0 {
      var c' := AddWnd(c);
      assert c' == c.(cwnd := c.cwnd + SMSS);
      assert Acks(k)[1..] == Acks(k - 1);
      SlowStartRun(c', k - 1);
    }
  }

  /** n duplicates in recovery inflate the window by n segments, up to the cap, and touch nothing else. */
  lemma {:induction false} InflationRun(c: Cong, n: nat)
    requires CongInv(c) && c.cc == CC_FR
    ensures CcRun(c, Dups(n)) == Some(c.(dup := c.dup + n, cwnd := CkSize(c.cwnd + n * SMSS)))
    decreases n
  {
    if n > 0 {
      var c' := SetDWnd(c, true);
      assert Dups(n)[1..] == Dups(n - 1);
      InflationRun(c', n - 1);
      assert CkSize(CkSize(c.cwnd + SMSS) + (n - 1) * SMSS) == CkSize(c.cwnd + n * SMSS);
    }
  }

  lemma {:induction false} CountingRun(c: Cong, n: nat)
    requires c.cc != CC_ERR && c.cc != CC_FR && c.dup + n < REXMT_THRESH
    ensures CcRun(c, Dups(n)) == if n > 0 && Traps(c) then None else Some(c.(dup := c.dup + n))
    decreases n
  {
    if n > 0 && !Traps(c) {
      assert Dups(n)[1..] == Dups(n - 1);
      CountingRun(SetDWnd(c, true), n - 1);
    }
  }

  /** A loss episode halves the window: whatever the number of duplicates beyond the third, the ack that ends
      it leaves congestion avoidance at max(cwnd / 2, 2 SMSS) (section 3.2 of RFC 5681, with cwnd for FlightSize). */
  lemma EpisodeHalvesWindow(c: Cong, n: nat)
    requires CongInv(c) && c.cc != CC_FR && c.dup + n >= REXMT_THRESH
    ensures var half := Max(c.cwnd / 2, 2 * SMSS);
            CcRun(c, Dups(n) + [AckMoves]) == Some(Cong(CC_CA, half, c.awnd, half, 0))
  {
    var k: nat := REXMT_THRESH - 1 - c.dup;
    var m: nat := n - k - 1;
    CountingRun(c, k);
    var c1 := c.(dup := REXMT_THRESH - 1);
    var c2 := SetDWnd(c1, true);
    CcStepInv(c, AckDup);
    assert CongInv(c2);
    InflationRun(c2, m);
    var c3 := c2.(dup := c2.dup + m, cwnd := CkSize(c2.cwnd + m * SMSS));
    assert Dups(m + 1) == [AckDup] + Dups(m);
    assert Dups(n) == Dups(k) + Dups(m + 1);
    assert (Dups(m + 1))[1..] == Dups(m);
    assert CcRun(c1, Dups(m + 1)) == Some(c3);
    CcRunConcat(c, Dups(k), Dups(m + 1));
    CcRunConcat(c, Dups(n), [AckMoves]);
    assert CcRun(c3, [AckMoves]) == Some(AddWnd(c3)) by {
      assert [AckMoves][1..] == [];
    }
  }

  /** After a timeout, slow start rebuilds the window from one segment towards half of the old one. */
  lemma TimeoutRestarts(c: Cong, k: nat)
    requires CongInv(c)
    requires k > 0 ==> k * SMSS < Max(c.cwnd / 2, 2 * SMSS)
    ensures CcRun(c, [TimedOut] + Acks(k)) == Some(Cong(CC_SS, (k + 1) * SMSS, c.awnd, Max(c.cwnd / 2, 2 * SMSS), 0))
  {
    var c' := SetTWnd(c);
    CcStepInv(c, TimedOut);
    SlowStartRun(c', k);
    assert ([TimedOut] + Acks(k))[1..] == Acks(k);
  }
}
