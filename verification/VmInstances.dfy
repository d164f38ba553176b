/** States in which paging does not do what it should. */
module VmInstances {
  import opened LfsDisk
  import opened BackingStore
  import opened VmSpec
  import opened VmSteps
  import opened VmFaults
  import opened VmProcesses

  function Blank(): Page { seq(4096, i => 0) }

  /** Every frame is in use: processes 1 and 2 have a directory, a table and one page each, of the two
      that they map; process 2's page is the newer one, and all bits are clear. */
  function TwoPages(hand: int): Vm {
    Vm([DirOf(1), TabOf(1, 4), PageOf(1, 4096), DirOf(2), TabOf(2, 4), PageOf(2, 4096)],
       map[1 := 0, 2 := 3], map[(1, 4) := 1, (2, 4) := 4], map[(1, 4096) := 2, (2, 4096) := 5],
       [5, 2], seq(6, i => Blank()), seq(6, i => Bits(false, false)), hand,
       seq(13080, i => seq(512, j => 0)),
       seq(8, i => if i < 2 then Bsent(true, i + 1, 2, 4096) else Bsent(false, 0, 0, 0)),
       seq(8, i => if i < 2 then Bs(true, true, 1, 2) else Bs(false, false, 0, 0)))
  }

  lemma StoresAt(hand: int)
    ensures var s := TwoPages(hand); forall vpn :: 4096 <= vpn < 4098 ==> FindStore(s.bsmap, 1, vpn, 0) == 0 && FindStore(s.bsmap, 2, vpn, 0) == 1
  {
    var s := TwoPages(hand);
    forall vpn | 4096 <= vpn < 4098
      ensures FindStore(s.bsmap, 1, vpn, 0) == 0 && FindStore(s.bsmap, 2, vpn, 0) == 1
    {
      assert Covers(s.bsmap[0], 1, vpn) && !Covers(s.bsmap[0], 2, vpn) && Covers(s.bsmap[1], 2, vpn);
    }
  }

  lemma TwoPagesSized(hand: int)
    ensures Sized(TwoPages(hand)) && Frames(TwoPages(hand))
  {
    var s := TwoPages(hand);
    forall f | 0 <= f < |s.own|
      ensures Owned(s, f)
    {
    }
  }

  lemma TwoPagesNested(hand: int)
    ensures Nested(TwoPages(hand), -1) && BitsOk(TwoPages(hand))
  {
    StoresAt(hand);
  }

  lemma TwoPagesOk(hand: int)
    ensures VmInv(TwoPages(hand), -1) && Quiet(TwoPages(hand)) && FirstFree(TwoPages(hand).own, 0) == 6
  {
    var s := TwoPages(hand);
    TwoPagesSized(hand);
    TwoPagesNested(hand);
    hide Sized, Frames, Nested;
    assert Resident(s);
    assert VmCore(s, -1);
  }

  /** Under FIFO, a fault for process 1's other page replaces its only resident one, and with it the
      table that the fault is about to fill. */
  lemma LostInstance()
    ensures var s := TwoPages(6);
      VmInv(s, -1) && Quiet(s) && Mapped(s, 1, 4097) && 1 in s.dir && Fault(s, FIFO, 1, 4097).Lost?
  {
    var s := TwoPages(6);
    TwoPagesOk(6);
    StoresAt(6);
    LostExactly(s, FIFO, 1, 4097);
    assert Picks(s, FIFO, 1) && OnlyOne(s, s.res[1], 1, 4);
  }

  /** With the hand on the newest page the clock replaces it, and is left on the end of the list, where
      the next replacement panics. */
  lemma HandInstance()
    ensures var s := TwoPages(5);
      && VmInv(s, -1) && Quiet(s) && HandOk(s)
      && GetFrame(s, GCA, PAGE, 1, 4097).Got? && GetFrame(s, GCA, PAGE, 1, 4097).s.hand == TailOf(s)
    ensures VmInv(TwoPages(7), -1) && Quiet(TwoPages(7)) && GetFrame(TwoPages(7), GCA, PAGE, 1, 4097) == GotPanic
  {
    var s := TwoPages(5);
    TwoPagesOk(5);
    TwoPagesOk(7);
    assert StartPlace(s) == 0;
    assert Least(s.bits, s.res, 0, 0);
    ClockHand(s, PAGE, 1, 4097);
    FrameHand(s, GCA, PAGE, 1, 4097);
  }

  /** With the hand on the oldest page FIFO replaces it for a new table, and the hand is left on an entry
      of no list. The rank of the newest page plays no part in it. */
  lemma FifoInstance()
    ensures var s := TwoPages(2);
      && VmInv(s, -1) && Quiet(s) && HandOk(s) && !Least(s.bits, s.res, StartPlace(s), 0)
      && GetFrame(s, FIFO, PAGE_TAB, 1, 0).Got? && !HandKnown(GetFrame(s, FIFO, PAGE_TAB, 1, 0).s)
  {
    var s := TwoPages(2);
    TwoPagesOk(2);
    assert StartPlace(s) == 1;
    assert Rank(s.bits, s.res, 1, 1) < Rank(s.bits, s.res, 1, 0);
    FifoHand(s, PAGE_TAB, 1, 0);
  }

  /** The hand is on a page of process 1; once that is killed, the hand is on no page and no end. */
  lemma KillInstance()
    ensures VmInv(TwoPages(2), 1)
    ensures var s := TwoPages(2); VmInv(s, -1) && Quiet(s) && HandOk(s) && !HandKnown(Kill(s, 1))
  {
    hide Kill, VmInv, Quiet, StoresOk;
    var s := TwoPages(2);
    TwoPagesOk(2);
    KillFreesAll(s, 1);
  }
}
