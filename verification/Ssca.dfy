/** The ssca object that updates a socket's window fields in place. */
module SscaObject {
  import opened TouTypes
  import opened Congestion

  /** The window manager of one socket. */
  class Ssca {
    var cc: CcState
    var sndCwnd: nat
    var sndAwnd: nat
    var sndWnd: nat
    var sndSsthresh: nat
    var dupackcount: nat

    ghost function View(): Cong
      reads this
    {
      Cong(cc, sndCwnd, sndAwnd, sndSsthresh, dupackcount)
    }

    constructor ()
      ensures View() == Cong(CC_SS, SMSS, SMSS, MAX_SSTHRESH, 0)
    {
      cc, sndCwnd, sndAwnd, sndWnd := CC_SS, SMSS, SMSS, SMSS;
      dupackcount, sndSsthresh := 0, MAX_SSTHRESH;
    }

    method AddWnd() returns (err: int)
      requires !Traps(View())
      modifies this
      ensures View() == Congestion.AddWnd(old(View()))
      ensures err == if old(cc) == CC_ERR then 1 else 0
    {
      err := 0;
      match cc
      case CC_ERR => err := 1;
      case CC_SS =>
        if sndCwnd < sndSsthresh {
          sndCwnd := sndCwnd + SMSS;
          sndCwnd := CkSize(sndCwnd);
        } else {
          cc := CC_CA;
          sndCwnd := sndCwnd + AvoidanceStep(sndCwnd);
          sndCwnd := CkSize(sndCwnd);
        }
        dupackcount := 0;
      case CC_CA =>
        sndCwnd := sndCwnd + AvoidanceStep(sndCwnd);
        sndCwnd := CkSize(sndCwnd);
        dupackcount := 0;
      case CC_FR =>
        cc := CC_CA;
        sndCwnd := sndSsthresh;
        sndCwnd := CkSize(sndCwnd);
        dupackcount := 0;
    }

    method GetWnd() returns (wnd: nat)
      modifies this`sndWnd
      ensures View() == old(View()) && wnd == sndWnd == Congestion.GetWnd(View())
    {
      sndWnd := Min(sndCwnd, sndAwnd);
      sndWnd := CkSize(sndWnd);
      wnd := sndWnd;
    }

    method SetTWnd() returns (err: int)
      modifies this
      ensures View() == Congestion.SetTWnd(old(View()))
      ensures err == if old(cc) == CC_ERR then 1 else 0
    {
      err := 0;
      match cc
      case CC_ERR => err := 1;
      case CC_SS =>
        sndSsthresh := Max(sndCwnd / 2, 2 * SMSS);
        sndCwnd, dupackcount := SMSS, 0;
      case _ =>
        cc := CC_SS;
        sndSsthresh := Max(sndCwnd / 2, 2 * SMSS);
        sndCwnd, dupackcount := SMSS, 0;
    }

    method SetDWnd(ackSeq: nat, sndUna: nat) returns (err: int)
      modifies this
      ensures View() == Congestion.SetDWnd(old(View()), ackSeq == sndUna)
      ensures err == if old(cc) == CC_ERR then 1 else 0
    {
      err := 0;
      match cc
      case CC_ERR => err := 1;
      case CC_FR =>
        if ackSeq == sndUna {
          dupackcount := dupackcount + 1;
        } else {
          dupackcount := 1;
        }
        sndCwnd := sndCwnd + SMSS;
        sndCwnd := CkSize(sndCwnd);
      case _ =>
        if ackSeq == sndUna {
          dupackcount := dupackcount + 1;
        } else {
          dupackcount := 1;
        }
        if dupackcount >= REXMT_THRESH {
          cc := CC_FR;
          sndSsthresh := Max(sndCwnd / 2, 2 * SMSS);
          sndCwnd := sndSsthresh + 3 * SMSS;
        }
    }
  }
}
