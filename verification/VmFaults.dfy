/** Page replacement and page faults as a whole, and when they keep what they should. */
module VmFaults {
  import opened DistinctLists
  import opened LfsDisk
  import opened BackingStore
  import opened VmSpec
  import opened VmSteps

  const FIFO := 3
  const GCA := 4

  /** Which page to replace: its frame, and the bits and the hand afterwards. Wild is a step along
      a link that leads to no page. */
  datatype Choice = Replace(frame: int, bits: seq<Bits>, hand: int) | ChoicePanic | ChoiceWild

  datatype Got = Got(s: Vm, frame: int) | GotPanic | GotWild

  datatype Faulted = Loaded(s: Vm, frame: int) | Lost(s: Vm, frame: int) | FaultPanic | FaultWild

  function IndexOf(l: seq<int>, x: int): (r: int)
    ensures -1 <= r < |l| && (r >= 0 ==> l[r] == x)
    ensures r == -1 <==> x !in l
  {
    if l == [] then -1
    else if l[0] == x then 0
    else
      var r := IndexOf(l[1..], x);
      assert l == [l[0]] + l[1..];
      if r == -1 then -1 else r + 1
  }

  /** The clock hand is where a sweep can start from. */
  predicate HandOk(s: Vm) { s.hand == HeadOf(s) || s.hand in s.res }

  /** The place a sweep starts from: the hand's, or the oldest page's. */
  function StartPlace(s: Vm): int { if s.hand == HeadOf(s) then |s.res| - 1 else IndexOf(s.res, s.hand) }

  function Choose(s: Vm, policy: int): Choice
    requires |s.bits| == |s.own| && (s.res != [] ==> ClockOk(s.bits, s.res))
  {
    if policy == FIFO then
      if s.res == [] then ChoiceWild else Replace(s.res[|s.res| - 1], s.bits, s.hand)
    else if policy == GCA then
      if s.hand == TailOf(s) then ChoicePanic
      else if s.res == [] || StartPlace(s) == -1 then ChoiceWild
      else
        var (k, bits, _) := Sweep(s.bits, s.res, StartPlace(s));
        Replace(s.res[k], bits, if k == 0 then TailOf(s) else s.res[k - 1])
    else ChoicePanic
  }

  lemma Clock(s: Vm)
    requires VmInv(s, -1) && Quiet(s)
    ensures s.res != [] ==> ClockOk(s.bits, s.res)
    ensures forall j :: 0 <= j < |s.res| ==> 0 <= s.res[j] < |s.own| && s.own[s.res[j]].PageOf?
  {
    assert VmInvSpelledOut(s);
    forall j | 0 <= j < |s.res|
      ensures 0 <= s.res[j] < |s.own| && s.own[s.res[j]].PageOf?
    {
      assert Owned(s, s.res[j]);
    }
  }

  /** The choice is the oldest page, or a page whose bits are both clear; it is always a page. */
  lemma ChoiceIs(s: Vm, policy: int)
    requires VmInv(s, -1) && Quiet(s)
    ensures |s.bits| == |s.own| && (s.res != [] ==> ClockOk(s.bits, s.res))
    ensures var c := Choose(s, policy); c.Replace? ==>
      && c.frame in s.res && 0 <= c.frame < |s.own| && s.own[c.frame].PageOf? && |c.bits| == |s.bits|
      && (policy == FIFO ==> c.frame == s.res[|s.res| - 1] && c.bits == s.bits && c.hand == s.hand)
      && (policy == GCA ==> c.bits[c.frame] == Bits(false, false) && (c.hand == TailOf(s) <==> c.frame == s.res[0])
                            && (c.hand != TailOf(s) ==> c.hand in s.res && c.hand != c.frame))
      && VmInv(s.(bits := c.bits, hand := c.hand), -1) && Quiet(s.(bits := c.bits, hand := c.hand))
  {
    Clock(s);
    var c := Choose(s, policy);
    if c.Replace? {
      if policy == GCA {
        SweepClears(s.bits, s.res, StartPlace(s));
      }
      VmInvBits(s, c.bits, c.hand);
    }
  }

  lemma VmInvBits(s: Vm, bits: seq<Bits>, hand: int)
    requires VmInv(s, -1) && |bits| == |s.bits| && (s.res == [] || ClockOk(bits, s.res))
    ensures VmInv(s.(bits := bits, hand := hand), -1) && SameMemory(s, s.(bits := bits, hand := hand))
  {
    assert VmInvSpelledOut(s);
    var s' := s.(bits := bits, hand := hand);
    forall g | 0 <= g < |s'.own|
      ensures Owned(s', g)
    {
      assert Owned(s, g);
    }
    assert Frames(s');
    forall f | 0 <= f < |s'.own| && s'.own[f].PageOf? && s'.bits[f].dirty
      ensures s'.bits[f].acc
    {
      assert f in s.res;
    }
    assert VmCore(s', -1);
  }

  /** get_free_frame_number, when no other call is under way. */
  ghost function GetFrame(s: Vm, policy: int, kind: int, pid: int, vpn: int): Got
    requires VmInv(s, -1) && Quiet(s)
  {
    var free := FirstFree(s.own, 0);
    if free < |s.own| then Got(ClaimedBy(s, free, kind, pid, vpn), free)
    else
      ChoiceIs(s, policy);
      match Choose(s, policy)
      case ChoicePanic => GotPanic
      case ChoiceWild => GotWild
      case Replace(f, bits, hand) =>
        var s1 := s.(bits := bits, hand := hand);
        PageAt(s1, f);
        Got(ClaimedBy(Evicted(s1, f), f, kind, pid, vpn), f)
  }

  /** The one frame whose use is not settled yet. */
  ghost predicate OnlyClaim(s: Vm, f: int) {
    forall g :: 0 <= g < |s.own| && g != f ==> !s.own[g].Claimed?
  }

  lemma SameMemoryTrans(s: Vm, s': Vm, s'': Vm)
    requires Sized(s) && Sized(s') && Sized(s'') && SameMemory(s, s') && SameMemory(s', s'')
    ensures SameMemory(s, s'')
  {
    forall p, v | Mapped(s, p, v)
      ensures Mem(s'', p, v) == Mem(s, p, v)
    {
      assert Mapped(s', p, v);
    }
  }

  /** Finding a frame, with or without replacement, changes no page of any process. */
  lemma GetFrameKeeps(s: Vm, policy: int, kind: int, pid: int, vpn: int)
    requires VmInv(s, -1) && Quiet(s) && kind in {PAGE_DIR, PAGE_TAB, PAGE} && pid > 0
    ensures var g := GetFrame(s, policy, kind, pid, vpn); g.Got? ==>
      && VmInv(g.s, -1) && SameMemory(s, g.s) && |g.s.own| == |s.own|
      && 0 <= g.frame < |s.own| && g.s.own[g.frame] == Claimed(kind, pid, vpn) && OnlyClaim(g.s, g.frame)
      && g.s.dir == s.dir && (forall k :: k in g.s.at ==> k in s.at) && (forall k :: k in g.s.tab ==> k in s.tab && g.s.tab[k] == s.tab[k])
  {
    var free := FirstFree(s.own, 0);
    if free < |s.own| {
      ClaimKeeps(s, free, kind, pid, vpn);
    } else {
      ChoiceIs(s, policy);
      var c := Choose(s, policy);
      if c.Replace? {
        var s1 := s.(bits := c.bits, hand := c.hand);
        VmInvBits(s, c.bits, c.hand) by {
          Clock(s);
          Clock(s1);
        }
        PageAt(s1, c.frame);
        ReplacedKeeps(s1, c.frame, kind, pid, vpn);
        SameMemoryTrans(s, s1, ClaimedBy(Evicted(s1, c.frame), c.frame, kind, pid, vpn));
      }
    }
  }

  /** A page's frame gets another purpose. */
  lemma ReplacedKeeps(s: Vm, f: int, kind: int, pid: int, vpn: int)
    requires VmInv(s, -1) && Quiet(s) && kind in {PAGE_DIR, PAGE_TAB, PAGE} && pid > 0 && 0 <= f < |s.own| && s.own[f].PageOf?
    ensures Mapped(s, s.own[f].pid, s.own[f].vpn) && |Evicted(s, f).own| == |s.own|
    ensures var s' := ClaimedBy(Evicted(s, f), f, kind, pid, vpn);
      && VmInv(s', -1) && SameMemory(s, s') && s'.own[f] == Claimed(kind, pid, vpn) && OnlyClaim(s', f)
      && s'.dir == s.dir && (forall k :: k in s'.at ==> k in s.at) && (forall k :: k in s'.tab ==> k in s.tab && s'.tab[k] == s.tab[k])
  {
    hide Mapped;
    PageAt(s, f);
    EvictKeeps(s, f);
    EvictedFacts(s, f);
    EvictKeepsMemory(s, f);
    ClaimKeeps(Evicted(s, f), f, kind, pid, vpn);
    SameMemoryTrans(s, Evicted(s, f), ClaimedBy(Evicted(s, f), f, kind, pid, vpn));
  }

  /** What happens to the list of resident pages: the chosen page leaves it, a new page becomes its
      newest. Under FIFO, then, pages leave in the order in which they came. */
  lemma GetFrameResidents(s: Vm, policy: int, kind: int, pid: int, vpn: int)
    requires VmInv(s, -1) && Quiet(s) && GetFrame(s, policy, kind, pid, vpn).Got?
    ensures var g := GetFrame(s, policy, kind, pid, vpn);
      var left := if FirstFree(s.own, 0) < |s.own| then s.res else Without(s.res, g.frame);
      && g.s.res == (if kind == PAGE then [g.frame] + left else left)
      && (policy == FIFO && FirstFree(s.own, 0) == |s.own| ==> s.res != [] && left == s.res[..|s.res| - 1] && g.frame == s.res[|s.res| - 1])
  {
    hide VmInv, Quiet, Without, Sweep;
    if FirstFree(s.own, 0) == |s.own| {
      ChoiceIs(s, policy);
      var c := Choose(s, policy);
      EvictedFacts(s.(bits := c.bits, hand := c.hand), c.frame) by {
        PageAt(s.(bits := c.bits, hand := c.hand), c.frame);
      }
      if s.res != [] {
        OldestLeaves(s);
      }
    }
  }

  lemma OldestLeaves(s: Vm)
    requires VmInv(s, -1) && Quiet(s) && s.res != []
    ensures Without(s.res, s.res[|s.res| - 1]) == s.res[..|s.res| - 1]
  {
    Clock(s);
    LastWithout(s.res);
  }

  lemma {:induction false} LastWithout(l: seq<int>)
    requires l != [] && forall j, k :: 0 <= j < |l| && 0 <= k < |l| && j != k ==> l[j] != l[k]
    ensures Without(l, l[|l| - 1]) == l[..|l| - 1]
  {
    if |l| > 1 {
      var t := l[1..];
      assert t[|t| - 1] == l[|l| - 1] && l[0] != l[|l| - 1];
      LastWithout(t);
      assert [l[0]] + t[..|t| - 1] == l[..|l| - 1];
    }
  }

  /** The page at place i is the one to replace: the oldest, or the one of the lowest rank. */
  ghost predicate Picks(s: Vm, policy: int, i: int) {
    if policy == FIFO then i == |s.res| - 1 && s.res != []
    else policy == GCA && s.hand != TailOf(s) && s.res != [] && StartPlace(s) != -1 && Least(s.bits, s.res, StartPlace(s), i)
  }

  lemma PicksIs(s: Vm, policy: int)
    requires VmInv(s, -1) && Quiet(s)
    ensures |s.bits| == |s.own| && (s.res != [] ==> ClockOk(s.bits, s.res))
    ensures var c := Choose(s, policy);
      && (c.Replace? <==> exists i :: Picks(s, policy, i))
      && forall i :: Picks(s, policy, i) ==> 0 <= i < |s.res| && c.frame == s.res[i]
  {
    Clock(s);
    var k := StartPlace(s);
    if policy == FIFO {
      assert s.res != [] ==> Picks(s, policy, |s.res| - 1);
    } else if policy == GCA && s.hand != TailOf(s) && s.res != [] && k != -1 {
      SweepLeast(s.bits, s.res, k);
      assert Picks(s, policy, Sweep(s.bits, s.res, k).0);
      forall i | Picks(s, policy, i)
        ensures i == Sweep(s.bits, s.res, k).0
      {
        LeastOnly(s.bits, s.res, k, i, Sweep(s.bits, s.res, k).0);
      }
    }
  }

  /** From a good hand the clock never panics; afterwards the hand is good again exactly if the
      newest page is not the one of the lowest rank. */
  lemma ClockHand(s: Vm, kind: int, pid: int, vpn: int)
    requires VmInv(s, -1) && Quiet(s) && HandOk(s) && FirstFree(s.own, 0) == |s.own| && s.res != []
    ensures var g := GetFrame(s, GCA, kind, pid, vpn);
      g.Got? && g.frame in s.res && (HandOk(g.s) <==> !Least(s.bits, s.res, StartPlace(s), 0))
  {
    HandAfter(s, kind, pid, vpn);
    PicksIs(s, GCA);
    SweepLeast(s.bits, s.res, StartPlace(s));
    var i := Sweep(s.bits, s.res, StartPlace(s)).0;
    assert Picks(s, GCA, i);
    if Least(s.bits, s.res, StartPlace(s), 0) {
      LeastOnly(s.bits, s.res, StartPlace(s), 0, i);
    }
  }

  /** The hand is good afterwards if the page replaced was not the newest. */
  lemma HandAfter(s: Vm, kind: int, pid: int, vpn: int)
    requires VmInv(s, -1) && Quiet(s) && HandOk(s) && FirstFree(s.own, 0) == |s.own| && s.res != []
    ensures |s.bits| == |s.own| && ClockOk(s.bits, s.res)
    ensures var g := GetFrame(s, GCA, kind, pid, vpn);
      g.Got? && g.frame == Choose(s, GCA).frame && g.frame in s.res && (HandOk(g.s) <==> g.frame != s.res[0])
  {
    hide Sweep, TableDropped, Served, FindStore, Mapped, StoresOk;
    ChoiceIs(s, GCA);
    var c := Choose(s, GCA);
    var s1 := s.(bits := c.bits, hand := c.hand);
    PageAt(s1, c.frame);
    EvictedFacts(s1, c.frame);
    Clock(s);
    WithoutIs(s.res, c.frame);
    var g := GetFrame(s, GCA, kind, pid, vpn);
    assert forall f :: f in g.s.res ==> f in s.res || f == c.frame;
    assert forall f :: f in s.res ==> f < |s.own|;
  }

  /** FIFO replaces the oldest page and does not look at the hand. A hand that was on that page is good
      afterwards exactly if the frame is for a page again; else it is on an entry of no list. */
  lemma FifoHand(s: Vm, kind: int, pid: int, vpn: int)
    requires VmInv(s, -1) && Quiet(s) && HandOk(s) && FirstFree(s.own, 0) == |s.own| && s.res != []
    requires kind in {PAGE_DIR, PAGE_TAB, PAGE} && pid > 0
    ensures var g := GetFrame(s, FIFO, kind, pid, vpn);
      && g.Got? && g.frame == s.res[|s.res| - 1]
      && (HandOk(g.s) <==> kind == PAGE || s.hand != s.res[|s.res| - 1]) && (HandKnown(g.s) <==> HandOk(g.s))
  {
    ChoiceIs(s, FIFO);
    Clock(s);
    var f := s.res[|s.res| - 1];
    PageAt(s, f);
    EvictedFacts(s, f);
    WithoutIs(s.res, f);
  }

  /** The hand is good, or on the end that makes the next sweep panic. */
  predicate HandKnown(s: Vm) { HandOk(s) || s.hand == TailOf(s) }

  // ---- page faults

  ghost function TableFor(s: Vm, policy: int, pid: int, idx: int): Got
    requires VmInv(s, -1) && Quiet(s) && pid in s.dir && pid > 0 && 4 <= idx < 576
  {
    if (pid, idx) in s.tab then Got(s, s.tab[(pid, idx)])
    else
      match GetFrame(s, policy, PAGE_TAB, pid, 0)
      case Got(s1, f) =>
        GetFrameKeeps(s, policy, PAGE_TAB, pid, 0);
        Got(TabMapped(s1, f, pid, idx), f)
      case GotPanic => GotPanic
      case GotWild => GotWild
  }

  lemma TableForKeeps(s: Vm, policy: int, pid: int, idx: int)
    requires VmInv(s, -1) && Quiet(s) && pid in s.dir && pid > 0 && 4 <= idx < 576
    ensures var g := TableFor(s, policy, pid, idx); g.Got? ==>
      && VmInv(g.s, -1) && Quiet(g.s) && SameMemory(s, g.s) && |g.s.own| == |s.own|
      && g.s.dir == s.dir && (pid, idx) in g.s.tab && g.s.tab[(pid, idx)] == g.frame
      && (forall k :: k in g.s.at ==> k in s.at) && ((pid, idx) in s.tab ==> g.s == s)
      && ((pid, idx) !in s.tab ==> TableEmpty(g.s, pid, idx))
  {
    if (pid, idx) !in s.tab {
      GetFrameKeeps(s, policy, PAGE_TAB, pid, 0);
      var g := GetFrame(s, policy, PAGE_TAB, pid, 0);
      if g.Got? {
        TabMappedKeeps(g.s, g.frame, pid, idx);
        SameMemoryTrans(s, g.s, TabMapped(g.s, g.frame, pid, idx));
        EmptyTable(g.s, pid, idx);
      }
    } else {
      assert SameMemory(s, s);
    }
  }

  /** A table that is not there has no page. */
  lemma EmptyTable(s: Vm, pid: int, idx: int)
    requires VmInv(s, -1) && (pid, idx) !in s.tab && pid > 0
    ensures TableEmpty(s, pid, idx)
  {
    assert VmInvSpelledOut(s);
  }

  /** The page fault handler for a page that is mapped but not resident. Lost: the table it is about
      to fill has just been freed, because the page replaced was the last one in it. */
  ghost function Fault(s: Vm, policy: int, pid: int, vpn: int): Faulted
    requires VmInv(s, -1) && Quiet(s) && Mapped(s, pid, vpn) && pid in s.dir && pid > 0 && 4 <= vpn / 1024 < 576
  {
    TableForKeeps(s, policy, pid, vpn / 1024);
    match TableFor(s, policy, pid, vpn / 1024)
    case GotPanic => FaultPanic
    case GotWild => FaultWild
    case Got(s0, _) =>
      GetFrameKeeps(s0, policy, PAGE, pid, vpn);
      match GetFrame(s0, policy, PAGE, pid, vpn)
      case GotPanic => FaultPanic
      case GotWild => FaultWild
      case Got(s1, f) =>
        if (pid, vpn / 1024) in s1.tab then Loaded(PageMapped(s1, f, pid, vpn), f) else Lost(s1, f)
  }

  /** A fault leaves the page resident and every page of every process unchanged. */
  lemma FaultKeeps(s: Vm, policy: int, pid: int, vpn: int)
    requires VmInv(s, -1) && Quiet(s) && Mapped(s, pid, vpn) && pid in s.dir && pid > 0 && 4 <= vpn / 1024 < 576
    requires (pid, vpn) !in s.at && Fault(s, policy, pid, vpn).Loaded?
    ensures var s' := Fault(s, policy, pid, vpn).s;
      VmInv(s', -1) && Quiet(s') && SameMemory(s, s') && s'.dir == s.dir && (pid, vpn) in s'.at && s'.at[(pid, vpn)] == Fault(s, policy, pid, vpn).frame
  {
    TableForKeeps(s, policy, pid, vpn / 1024);
    var s0 := TableFor(s, policy, pid, vpn / 1024).s;
    GetFrameKeeps(s0, policy, PAGE, pid, vpn);
    var g := GetFrame(s0, policy, PAGE, pid, vpn);
    SameMemoryTrans(s, s0, g.s);
    PageMappedKeeps(g.s, g.frame, pid, vpn);
    SameMemoryTrans(s, g.s, PageMapped(g.s, g.frame, pid, vpn));
  }

  /** The page to replace is the only one in the table that the fault is to fill. */
  ghost predicate TakesOwnTable(s: Vm, policy: int, pid: int, vpn: int)
    requires VmInv(s, -1) && Quiet(s)
  {
    && (pid, vpn / 1024) in s.tab && FirstFree(s.own, 0) == |s.own|
    && exists i :: Picks(s, policy, i) && 0 <= i < |s.res| && OnlyOne(s, s.res[i], pid, vpn / 1024)
  }

  /** Frame f has a page of table idx of process pid, and no other page of that table is resident. */
  ghost predicate OnlyOne(s: Vm, f: int, pid: int, idx: int) {
    && 0 <= f < |s.own| && s.own[f].PageOf? && s.own[f].pid == pid && s.own[f].vpn / 1024 == idx
    && forall v :: (pid, v) in s.at && v / 1024 == idx ==> v == s.own[f].vpn
  }

  /** A fault loses its page exactly in that case. */
  lemma LostExactly(s: Vm, policy: int, pid: int, vpn: int)
    requires VmInv(s, -1) && Quiet(s) && Mapped(s, pid, vpn) && pid in s.dir && pid > 0 && 4 <= vpn / 1024 < 576
    ensures Fault(s, policy, pid, vpn).Lost? <==> TakesOwnTable(s, policy, pid, vpn)
  {
    var idx := vpn / 1024;
    TableForKeeps(s, policy, pid, idx);
    var t := TableFor(s, policy, pid, idx);
    if t.Got? {
      var s0 := t.s;
      GetFrameKeeps(s0, policy, PAGE, pid, vpn);
      if FirstFree(s0.own, 0) == |s0.own| {
        ChoiceIs(s0, policy);
        PicksIs(s0, policy);
        var c := Choose(s0, policy);
        if c.Replace? {
          PageAt(s0, c.frame);
          DroppedExactly(s0.(bits := c.bits, hand := c.hand), c.frame, pid, idx);
        }
      }
    }
  }

  /** Evicting frame f frees the table exactly if its page is the only one there. */
  lemma DroppedExactly(s: Vm, f: int, pid: int, idx: int)
    requires VmInv(s, -1) && 0 <= f < |s.own| && s.own[f].PageOf? && (pid, idx) in s.tab
    ensures Mapped(s, s.own[f].pid, s.own[f].vpn)
    ensures (pid, idx) !in Evicted(s, f).tab <==>
      s.own[f].pid == pid && s.own[f].vpn / 1024 == idx && forall v :: (pid, v) in s.at && v / 1024 == idx ==> v == s.own[f].vpn
  {
    PageAt(s, f);
    var out, v := PagedOut(s, f), s.own[f].vpn;
    if s.own[f].pid == pid && v / 1024 == idx {
      if u :| (pid, u) in s.at && u / 1024 == idx && u != v {
        assert (pid, u) in out.at;
      } else {
        assert TableEmpty(out, pid, idx);
      }
    }
  }

  /** Getting a frame loses a known hand in exactly this case: FIFO takes the oldest page from under the
      hand, and the frame is not for a page again. */
  ghost predicate LosesHand(s: Vm, policy: int, kind: int) {
    policy == FIFO && FirstFree(s.own, 0) == |s.own| && kind != PAGE && s.res != [] && s.hand == s.res[|s.res| - 1]
  }

  lemma FrameHand(s: Vm, policy: int, kind: int, pid: int, vpn: int)
    requires VmInv(s, -1) && Quiet(s) && HandKnown(s) && GetFrame(s, policy, kind, pid, vpn).Got?
    requires kind in {PAGE_DIR, PAGE_TAB, PAGE} && pid > 0
    ensures HandKnown(GetFrame(s, policy, kind, pid, vpn).s) <==> !LosesHand(s, policy, kind)
  {
    hide VmInv, Quiet;
    Clock(s);
    if FirstFree(s.own, 0) == |s.own| {
      ChoiceIs(s, policy);
      var c := Choose(s, policy);
      var s1 := s.(bits := c.bits, hand := c.hand);
      PageAt(s1, c.frame);
      EvictedFacts(s1, c.frame);
      WithoutIs(s.res, c.frame);
    }
  }

  /** A hand on a table's frame stays there while another frame is got for a page. */
  lemma HandStaysLost(s: Vm, pid: int, vpn: int)
    requires VmInv(s, -1) && Quiet(s) && 0 <= s.hand < |s.own| && s.own[s.hand].TabOf? && GetFrame(s, FIFO, PAGE, pid, vpn).Got?
    ensures !HandKnown(GetFrame(s, FIFO, PAGE, pid, vpn).s)
  {
    hide VmInv, Quiet, GetFrame;
    Clock(s);
    FifoGot(s, PAGE, pid, vpn);
    GetFrameResidents(s, FIFO, PAGE, pid, vpn);
    WithoutIs(s.res, GetFrame(s, FIFO, PAGE, pid, vpn).frame);
  }

  /** FIFO does not move the hand, and takes a frame that is free or has a page. */
  lemma FifoGot(s: Vm, kind: int, pid: int, vpn: int)
    requires VmInv(s, -1) && Quiet(s) && GetFrame(s, FIFO, kind, pid, vpn).Got?
    ensures var g := GetFrame(s, FIFO, kind, pid, vpn);
      && g.s.hand == s.hand && |g.s.own| == |s.own| && 0 <= g.frame < |s.own| && (s.own[g.frame] == NoOne || s.own[g.frame].PageOf?)
      && (forall i, j :: 0 <= i < |s.res| && 0 <= j < |s.res| && i != j ==> s.res[i] != s.res[j])
  {
    hide VmInv, Quiet, Without;
    Clock(s);
    ChoiceIs(s, FIFO);
    if FirstFree(s.own, 0) == |s.own| {
      var f := s.res[|s.res| - 1];
      PageAt(s, f);
      EvictedFacts(s, f);
    }
  }

  /** A fault's page is put where the second frame was got, which moves neither the hand nor the list. */
  lemma FaultIs(s: Vm, policy: int, pid: int, vpn: int)
    requires VmInv(s, -1) && Quiet(s) && Mapped(s, pid, vpn) && pid in s.dir && pid > 0 && 4 <= vpn / 1024 < 576
    requires Fault(s, policy, pid, vpn).Loaded?
    ensures var t := TableFor(s, policy, pid, vpn / 1024);
      && t.Got? && VmInv(t.s, -1) && Quiet(t.s) && GetFrame(t.s, policy, PAGE, pid, vpn).Got?
      && var s', g := Fault(s, policy, pid, vpn).s, GetFrame(t.s, policy, PAGE, pid, vpn).s;
         s'.hand == g.hand && s'.res == g.res && |s'.own| == |g.own|
  {
    TableForKeeps(s, policy, pid, vpn / 1024);
    GetFrameKeeps(TableFor(s, policy, pid, vpn / 1024).s, policy, PAGE, pid, vpn);
  }

  /** The frame that the hand was on has become the table. */
  lemma HandOnTable(s: Vm, pid: int, idx: int)
    requires VmInv(s, -1) && Quiet(s) && pid in s.dir && pid > 0 && 4 <= idx < 576 && (pid, idx) !in s.tab && LosesHand(s, FIFO, PAGE_TAB)
    ensures var g := TableFor(s, FIFO, pid, idx);
      g.Got? && g.s.hand == s.hand && 0 <= s.hand < |g.s.own| && g.s.own[s.hand] == TabOf(pid, idx)
  {
    ChoiceIs(s, FIFO);
    Clock(s);
    GetFrameKeeps(s, FIFO, PAGE_TAB, pid, 0);
    var f := s.res[|s.res| - 1];
    PageAt(s, f);
    EvictedFacts(s, f);
  }

  /** A fault loses a known hand exactly if it needs a table, and getting the table's frame loses it. */
  lemma FaultHand(s: Vm, policy: int, pid: int, vpn: int)
    requires VmInv(s, -1) && Quiet(s) && Mapped(s, pid, vpn) && pid in s.dir && pid > 0 && 4 <= vpn / 1024 < 576
    requires HandKnown(s) && Fault(s, policy, pid, vpn).Loaded?
    ensures HandKnown(Fault(s, policy, pid, vpn).s) <==> (pid, vpn / 1024) in s.tab || !LosesHand(s, policy, PAGE_TAB)
  {
    hide Fault, Mapped, VmInv, Quiet;
    var idx := vpn / 1024;
    FaultIs(s, policy, pid, vpn);
    var s0 := TableFor(s, policy, pid, idx).s;
    if (pid, idx) !in s.tab {
      FrameHand(s, policy, PAGE_TAB, pid, 0);
      GetFrameKeeps(s, policy, PAGE_TAB, pid, 0);
    }
    if (pid, idx) in s.tab || !LosesHand(s, policy, PAGE_TAB) {
      FrameHand(s0, policy, PAGE, pid, vpn);
    } else {
      HandOnTable(s, pid, idx);
      HandStaysLost(s0, pid, vpn);
    }
  }

  lemma HandStays(s: Vm, pid: int, idx: int)
    requires VmInv(s, -1) && Quiet(s) && pid in s.dir && pid > 0 && 4 <= idx < 576
    ensures HandKnown(s) && TableFor(s, GCA, pid, idx).Got? ==> HandKnown(TableFor(s, GCA, pid, idx).s)
  {
    if HandKnown(s) && (pid, idx) !in s.tab && GetFrame(s, GCA, PAGE_TAB, pid, 0).Got? {
      FrameHand(s, GCA, PAGE_TAB, pid, 0);
    }
  }
}
