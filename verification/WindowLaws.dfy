/** What a history of window events decides about the window, the duplicate count and the fast retransmits. */
module WindowLaws {
  import opened TouTypes
  import opened Congestion

  /** The usable window is the largest number allowed by cwnd, by the peer and by half of the buffer. */
  lemma WindowIsLargest(c: Cong, w: nat)
    ensures w <= GetWnd(c) <==> w <= c.cwnd && w <= c.awnd && w <= MAX_CIRCULAR_BUF / 2
  {
  }

  // ---------------------------------------------------------------- duplicates in a row

  /** How many duplicate acks a history ends with. */
  function Trailing(es: seq<CcEvent>): nat
    decreases |es|
  {
    if es == [] || es[|es| - 1] != AckDup then 0 else 1 + Trailing(es[..|es| - 1])
  }

  /** How many events of a history are the third duplicate in a row. */
  function Thirds(es: seq<CcEvent>): nat
    decreases |es|
  {
    if es == [] then 0 else Thirds(es[..|es| - 1]) + if Trailing(es) == 3 then 1 else 0
  }

  lemma {:induction false} FiresConcat(c: Cong, es: seq<CcEvent>, e: CcEvent)
    requires CongInv(c)
    ensures var m := CcRun(c, es);
            m.Some? && !Traps(m.value)
            && CcRun(c, es + [e]) == Some(CcNext(m.value, e))
            && Fires(c, es + [e])
               == Fires(c, es) + if e == AckDup && CkNumDupack(CcNext(m.value, e)) then 1 else 0
    decreases |es|
  {
    CcStepInv(c, e);
    if es == [] {
      assert es + [e] == [e] && [e][1..] == [];
    } else {
      CcStepInv(c, es[0]);
      FiresConcat(CcNext(c, es[0]), es[1..], e);
      assert (es + [e])[1..] == es[1..] + [e];
    }
  }

  /** In every history the duplicate count is the number of duplicates received in a row, so any other ack and any
      timeout starts it again; the sender is in recovery exactly after three or more; and a fast retransmit fires
      exactly on each third duplicate in a row. */
  lemma {:induction false} DuplicatesInARow(c: Cong, es: seq<CcEvent>)
    requires CongInv(c) && c.dup == 0
    ensures CcRun(c, es).Some?
    ensures var r := CcRun(c, es).value;
            CongInv(r) && r.dup == Trailing(es) && (r.cc == CC_FR <==> Trailing(es) >= 3)
    ensures Fires(c, es) == Thirds(es)
    decreases |es|
  {
    if es != [] {
      var n := |es| - 1;
      DuplicatesInARow(c, es[..n]);
      FiresConcat(c, es[..n], es[n]);
      CcStepInv(CcRun(c, es[..n]).value, es[n]);
      assert es == es[..n] + [es[n]];
    }
  }

  ghost predicate ThreeInARow(es: seq<CcEvent>) {
    exists i :: 0 <= i < |es| - 2 && es[i] == AckDup && es[i + 1] == AckDup && es[i + 2] == AckDup
  }

  /** Something is retransmitted before its timeout exactly if three duplicates came in a row. */
  lemma FiresIffThreeInARow(c: Cong, es: seq<CcEvent>)
    requires CongInv(c) && c.dup == 0
    ensures Fires(c, es) > 0 <==> ThreeInARow(es)
  {
    DuplicatesInARow(c, es);
    if Thirds(es) > 0 {
      ThirdIsInARow(es);
    }
    if ThreeInARow(es) {
      InARowIsThird(es);
    }
  }

  lemma {:induction false} ThirdIsInARow(es: seq<CcEvent>)
    requires Thirds(es) > 0
    ensures ThreeInARow(es)
    decreases |es|
  {
    var a := es[..|es| - 1];
    if Thirds(a) > 0 {
      ThirdIsInARow(a);
      var i :| 0 <= i < |a| - 2 && a[i] == AckDup && a[i + 1] == AckDup && a[i + 2] == AckDup;
      assert es[i] == AckDup && es[i + 1] == AckDup && es[i + 2] == AckDup;
    } else {
      LastThree(es);
      var i := |es| - 3;
      assert es[i] == AckDup && es[i + 1] == AckDup && es[i + 2] == AckDup;
    }
  }

  lemma LastThree(es: seq<CcEvent>)
    requires Trailing(es) >= 3
    ensures |es| >= 3 && es[|es| - 1] == AckDup && es[|es| - 2] == AckDup && es[|es| - 3] == AckDup
  {
    var a := es[..|es| - 1];
    assert Trailing(a) >= 2;
    var b := a[..|a| - 1];
    assert Trailing(b) >= 1;
  }

  lemma {:induction false} InARowIsThird(es: seq<CcEvent>)
    requires ThreeInARow(es)
    ensures Thirds(es) > 0
    decreases |es|
  {
    var i :| 0 <= i < |es| - 2 && es[i] == AckDup && es[i + 1] == AckDup && es[i + 2] == AckDup;
    var a := es[..|es| - 1];
    if i + 2 == |es| - 1 {
      assert Trailing(es) >= 3 by {
        var b := a[..|a| - 1];
        assert Trailing(b) >= 1 && Trailing(a) == 1 + Trailing(b);
      }
      ManyPassThree(es);
    } else {
      assert a[i] == AckDup && a[i + 1] == AckDup && a[i + 2] == AckDup;
      InARowIsThird(a);
    }
  }

  lemma {:induction false} ManyPassThree(es: seq<CcEvent>)
    requires Trailing(es) >= 3
    ensures Thirds(es) > 0
    decreases |es|
  {
    if Trailing(es) > 3 {
      ManyPassThree(es[..|es| - 1]);
    }
  }

  // ---------------------------------------------------------------- the window

  /** From the handshake k new acks open the window from two segments to k + 2. */
  lemma InitialSlowStart(awnd: nat, k: nat)
    requires (k + 2) * SMSS <= MAX_CIRCULAR_BUF / 2
    ensures CcRun(InitCong(awnd), Acks(k)) == Some(Cong(CC_SS, (k + 2) * SMSS, awnd, MAX_SSTHRESH, 0))
  {
    SlowStartRun(InitCong(awnd), k);
  }

  /** The ack that ends slow start, and every new ack in avoidance, adds the integer part of SMSS * SMSS / cwnd. */
  lemma NewAckAvoids(c: Cong, q: nat)
    requires CongInv(c) && (c.cc == CC_CA || (c.cc == CC_SS && c.cwnd >= c.ssthresh))
    requires q * c.cwnd <= SMSS * SMSS < (q + 1) * c.cwnd
    ensures CcNext(c, AckMoves) == Cong(CC_CA, Min(c.cwnd + q, MAX_CIRCULAR_BUF / 2), c.awnd, c.ssthresh, 0)
  {
    var p := AvoidanceStep(c.cwnd);
    MulCancel(p, q + 1, c.cwnd);
    MulCancel(q, p + 1, c.cwnd);
  }

  lemma StepAtLeast(q: nat, x: nat, w: nat)
    requires 0 < x <= w && q * w <= SMSS * SMSS
    ensures q <= AvoidanceStep(x)
  {
    MulMono(x, w, q);
    MulCancel(q, AvoidanceStep(x) + 1, x);
  }

  lemma Climb(k: nat, q: nat, w: nat, w': nat, r: nat)
    requires 0 < k && w + q <= w' && w' + (k - 1) * q <= r
    ensures w + k * q <= r
  {
    assert k * q == (k - 1) * q + q;
  }

  /** k new acks in avoidance add at least k times q, if one more ack after them would still add q: the window
      keeps growing until a step rounds to nothing, or the cap is reached. */
  lemma {:induction false} AvoidanceKeepsGrowing(c: Cong, k: nat, q: nat)
    requires CongInv(c) && c.cc == CC_CA && AvoidK(c, k).cwnd < MAX_CIRCULAR_BUF / 2
    requires q * AvoidK(c, k).cwnd <= SMSS * SMSS
    ensures AvoidK(c, k).cwnd >= c.cwnd + k * q
    decreases k
  {
    if k > 0 {
      var c' := AddWnd(c);
      AvoidGrows(c);
      CcStepInv(c, AckMoves);
      AvoidKBound(c', k - 1);
      AvoidanceKeepsGrowing(c', k - 1, q);
      StepAtLeast(q, c.cwnd, AvoidK(c, k).cwnd);
      Climb(k, q, c.cwnd, c'.cwnd, AvoidK(c, k).cwnd);
    }
  }

  /** The third duplicate in a row halves the window and adds the three segments that have left the network. */
  lemma ThirdEnters(c: Cong)
    requires CongInv(c) && c.cc != CC_FR && c.dup == 2
    ensures var half := Max(c.cwnd / 2, 2 * SMSS);
            var r := CcNext(c, AckDup);
            CongInv(r) && r == Cong(CC_FR, half + 3 * SMSS, c.awnd, half, 3) && r.cwnd <= MAX_CIRCULAR_BUF / 2
  {
    CcStepInv(c, AckDup);
  }

  lemma DupsThenDups(c: Cong, c1: Cong, k: nat, m: nat)
    requires CcRun(c, Dups(k)) == Some(c1) && !Traps(c1)
    ensures CcRun(c, Dups(k + 1 + m)) == CcRun(CcNext(c1, AckDup), Dups(m))
  {
    hide SetDWnd;
    assert Dups(m + 1)[1..] == Dups(m);
    assert Dups(k + 1 + m) == Dups(k) + Dups(m + 1);
    CcRunConcat(c, Dups(k), Dups(m + 1));
  }

  lemma TwoCounted(c: Cong)
    requires CongInv(c) && c.cc != CC_FR
    ensures c.dup <= 2 && CongInv(c.(dup := 2)) && !Traps(c.(dup := 2))
    ensures CcRun(c, Dups(2 - c.dup)) == Some(c.(dup := 2))
  {
    assert c.dup <= 2 && !Traps(c);
    CountingRun(c, 2 - c.dup);
    hide CcRun, Dups;
  }

  /** While duplicates arrive in recovery the window is half the old one and one segment for each of them. */
  lemma RecoveryInflates(c: Cong, n: nat)
    requires CongInv(c) && c.cc != CC_FR && c.dup + n >= 3
    ensures var half := Max(c.cwnd / 2, 2 * SMSS);
            CcRun(c, Dups(n))
            == Some(Cong(CC_FR, Min(half + (c.dup + n) * SMSS, MAX_CIRCULAR_BUF / 2), c.awnd, half, c.dup + n))
  {
    TwoCounted(c);
    hide SetDWnd, CcRun, CongInv, CcNext, Dups, CkSize, Min, Max, Traps;
    ThirdEnters(c.(dup := 2));
    InflatesFrom(c, c.(dup := 2), 2 - c.dup, c.dup + n - 3, Max(c.cwnd / 2, 2 * SMSS));
    assert 2 - c.dup + 1 + (c.dup + n - 3) == n;
  }

  lemma InflatesFrom(c: Cong, c1: Cong, k: nat, m: nat, half: nat)
    requires CcRun(c, Dups(k)) == Some(c1) && !Traps(c1)
    requires CcNext(c1, AckDup) == Cong(CC_FR, half + 3 * SMSS, c.awnd, half, 3) && CongInv(CcNext(c1, AckDup))
    ensures CcRun(c, Dups(k + 1 + m))
            == Some(Cong(CC_FR, Min(half + (m + 3) * SMSS, MAX_CIRCULAR_BUF / 2), c.awnd, half, m + 3))
  {
    hide SetDWnd, CcRun, CongInv, Dups, CcNext, Traps;
    InflationRun(CcNext(c1, AckDup), m);
    DupsThenDups(c, c1, k, m);
    CapIsMin(half + 3 * SMSS + m * SMSS);
  }

  lemma CapIsMin(w: nat)
    ensures CkSize(w) == Min(w, MAX_CIRCULAR_BUF / 2)
  {
  }

  /** A duplicate of another number than snd_una starts the count at one, and two more of snd_una complete it. */
  lemma OtherDuplicateStartsOver(c: Cong, n: nat)
    requires CongInv(c) && c.cc != CC_FR
    ensures Fires(SetDWnd(c, false), Dups(n)) == if n >= 2 then 1 else 0
  {
    DupBurst(SetDWnd(c, false), n);
  }
}
