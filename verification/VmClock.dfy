/** The clock over many replacements: every sweep goes on from where the last one stopped. */
module VmClock {
  import opened DistinctLists
  import opened BackingStore
  import opened VmSpec
  import opened VmSteps
  import opened VmFaults
  import opened VmRuns

  // ---- one replacement

  lemma ChoiceAt(s: Vm, i: int)
    requires VmInv(s, -1) && Quiet(s) && Picks(s, GCA, i)
    ensures |s.bits| == |s.own| && ClockOk(s.bits, s.res) && 0 <= i < |s.res|
    ensures Choose(s, GCA) == Replace(s.res[i], VmSteps.Sweep(s.bits, s.res, StartPlace(s)).1, if i == 0 then TailOf(s) else s.res[i - 1])
  {
    hide Sweep, Rank, VmInv, Quiet;
    PicksIs(s, GCA);
    Clock(s);
    SweepLeast(s.bits, s.res, StartPlace(s));
    LeastOnly(s.bits, s.res, StartPlace(s), i, VmSteps.Sweep(s.bits, s.res, StartPlace(s)).0);
  }

  /** Where the hand is afterwards: on the page that is next newer than the replaced one, or on the end
      of the list if there is none. The other pages have the bits that the sweep left them. */
  lemma HandAt(s: Vm, kind: int, pid: int, vpn: int, i: int)
    requires VmInv(s, -1) && Quiet(s) && FirstFree(s.own, 0) == |s.own| && Picks(s, GCA, i)
    requires kind in {PAGE_DIR, PAGE_TAB, PAGE} && pid > 0
    ensures |s.bits| == |s.own| && ClockOk(s.bits, s.res) && 0 <= i < |s.res|
    ensures var g := GetFrame(s, GCA, kind, pid, vpn);
      && g.Got? && g.frame == s.res[i] && g.s.hand == (if i == 0 then TailOf(s) else s.res[i - 1]) && |g.s.own| == |s.own|
      && g.s.bits == VmSteps.Sweep(s.bits, s.res, StartPlace(s)).1
  {
    hide Sweep, Choose, Picks, Without, TableDropped, Served, FindStore, Mapped, StoresOk, VmInv, Quiet;
    ChoiceAt(s, i);
    ChoiceIs(s, GCA);
    var c := Choose(s, GCA);
    var s1 := s.(bits := c.bits, hand := c.hand);
    PageAt(s1, c.frame);
    EvictedFacts(s1, c.frame);
  }

  // ---- places in the list

  lemma {:induction false} IndexIs(l: seq<int>, j: nat)
    requires Distinct(l) && j < |l|
    ensures IndexOf(l, l[j]) == j
  {
    if j > 0 {
      assert Distinct(l[1..]) && l[1..][j - 1] == l[j] && l[0] != l[j];
      IndexIs(l[1..], j - 1);
    }
  }

  lemma {:induction false} WithoutOne(l: seq<int>, i: nat)
    requires Distinct(l) && i < |l|
    ensures Without(l, l[i]) == l[..i] + l[i + 1..]
  {
    if i > 0 {
      assert Distinct(l[1..]) && l[1..][i - 1] == l[i] && l[0] != l[i];
      WithoutOne(l[1..], i - 1);
      assert [l[0]] + (l[1..][..i - 1] + l[1..][i..]) == l[..i] + l[i + 1..];
    }
  }

  /** How many pages the clock looks at before it is at frame f. */
  function Until(s: Vm, f: int): int { Distance(|s.res|, StartPlace(s), IndexOf(s.res, f)) }

  /** Both frames hold pages, and the clock comes to f before it comes to g. */
  predicate Ahead(s: Vm, f: int, g: int) { f in s.res && g in s.res && Until(s, f) < Until(s, g) }

  lemma IndexLonger(l: seq<int>, x: int, y: int)
    requires x !in l && y in l
    ensures IndexOf([x] + l, y) == IndexOf(l, y) + 1
  {
    assert ([x] + l)[1..] == l;
  }

  lemma DistanceLonger(n: int, k: int, j: int, m: int)
    requires 0 <= k < n && 0 <= j < n && 0 <= m < n && Distance(n, k, j) < Distance(n, k, m)
    ensures Distance(n + 1, k + 1, j + 1) < Distance(n + 1, k + 1, m + 1)
  {
  }

  /** A page more at the new end of the list changes no order. */
  lemma AheadLonger(s: Vm, s': Vm, x: int, f: int, g: int)
    requires HandOk(s) && |s'.own| == |s.own| && s'.hand == s.hand && s'.res == [x] + s.res
    requires x !in s.res && 0 <= x < |s.own| && (forall y :: y in s.res ==> 0 <= y < |s.own|) && Ahead(s, f, g)
    ensures Ahead(s', f, g)
  {
    hide IndexOf, Distance;
    IndexLonger(s.res, x, f);
    IndexLonger(s.res, x, g);
    if s.hand != HeadOf(s) {
      IndexLonger(s.res, x, s.hand);
    }
    DistanceLonger(|s.res|, StartPlace(s), IndexOf(s.res, f), IndexOf(s.res, g));
  }

  /** Where place x of a list is once place i has been taken out, and put in front if o is 1. */
  function NewPlace(i: int, o: int, x: int): int { if x < i then x + o else x - 1 + o }

  ghost predicate MovedOver(l: seq<int>, l': seq<int>, i: int, o: int) {
    && o in {0, 1} && 0 <= i < |l| && |l'| == |l| - 1 + o && Distinct(l')
    && forall x {:trigger l[x]} :: 0 <= x < |l| && x != i ==> l'[NewPlace(i, o, x)] == l[x]
  }

  /** Nor does the replacement of a page that the clock comes to before both of them. */
  lemma AheadReplaced(s: Vm, s': Vm, i: int, page: bool, f: int, g: int)
    requires HandOk(s) && |s'.own| == |s.own| && 0 < i < |s.res| && Distinct(s.res)
    requires s'.hand == s.res[i - 1] && s'.res == (if page then [s.res[i]] else []) + Without(s.res, s.res[i])
    requires (forall y :: y in s.res ==> 0 <= y < |s.own|) && Ahead(s, f, g) && Until(s, s.res[i]) < Until(s, f)
    ensures Ahead(s', f, g)
  {
    hide Distance, Without, IndexOf, MovedOver, Distinct;
    assert s.res[i - 1] in s.res;
    var r, j, k, o := s.res, IndexOf(s.res, f), IndexOf(s.res, g), if page then 1 else 0;
    MovedBy(s.res, s'.res, i, o);
    IndexIs(r, i);
    MovedIndex(r, s'.res, i, o, j);
    MovedIndex(r, s'.res, i, o, k);
    MovedIndex(r, s'.res, i, o, i - 1);
    DistanceGoesOn(|r|, StartPlace(s), i, j, k, o);
  }

  /** Seen from the next newer place, the places that were behind place i keep their order. */
  lemma DistanceGoesOn(n: int, k: int, i: int, j: int, m: int, o: int)
    requires 0 <= k < n && 0 < i < n && 0 <= j < n && 0 <= m < n && j != i && m != i && o in {0, 1}
    requires Distance(n, k, i) < Distance(n, k, j) < Distance(n, k, m)
    ensures Distance(n - 1 + o, NewPlace(i, o, i - 1), NewPlace(i, o, j)) < Distance(n - 1 + o, NewPlace(i, o, i - 1), NewPlace(i, o, m))
  {
  }

  /** The list after a replacement. */
  lemma MovedBy(l: seq<int>, l': seq<int>, i: int, o: int)
    requires 0 <= i < |l| && Distinct(l) && o in {0, 1} && l' == (if o == 1 then [l[i]] else []) + Without(l, l[i])
    ensures MovedOver(l, l', i, o) && |l'| == |l| - 1 + o
  {
    hide Without, Distinct;
    var w := Without(l, l[i]);
    WithoutOne(l, i);
    WithoutIs(l, l[i]);
    if o == 1 {
      OneMore(w, l[i]);
    } else {
      assert [] + w == w;
    }
  }

  lemma OneMore(l: seq<int>, x: int)
    requires Distinct(l) && x !in l
    ensures Distinct([x] + l)
  {
  }

  lemma MovedIndex(l: seq<int>, l': seq<int>, i: int, o: int, j: int)
    requires MovedOver(l, l', i, o) && 0 <= j < |l| && j != i
    ensures l[j] in l' && IndexOf(l', l[j]) == NewPlace(i, o, j)
  {
    hide IndexOf;
    assert l'[NewPlace(i, o, j)] == l[j];
    IndexIs(l', NewPlace(i, o, j));
  }

  // ---- two pages that are not used

  /** The page is resident and neither bit of it is set. */
  predicate Unused(s: Vm, page: (int, int)) {
    page in s.at && 0 <= s.at[page] < |s.own| == |s.bits| && s.own[s.at[page]] == PageOf(page.0, page.1) && s.bits[s.at[page]] == Bits(false, false)
  }

  /** Two unused pages, of which the clock comes to the first one first. */
  ghost predicate InOrder(s: Vm, first: (int, int), second: (int, int)) {
    && HandKnown(s) && Unused(s, first) && Unused(s, second)
    && (s.hand != TailOf(s) ==> Ahead(s, s.at[first], s.at[second]))
  }

  lemma ListIs(s: Vm)
    requires VmInv(s, -1) && Quiet(s)
    ensures Distinct(s.res) && |s.bits| == |s.own|
    ensures forall f :: f in s.res <==> 0 <= f < |s.own| && s.own[f].PageOf?
  {
    assert VmInvSpelledOut(s);
    forall f
      ensures f in s.res <==> 0 <= f < |s.own| && s.own[f].PageOf?
    {
      if f in s.res {
        var j :| 0 <= j < |s.res| && s.res[j] == f;
        assert Kind(s.own[s.res[j]]) == PAGE && Owned(s, f);
      }
    }
  }

  /** An unused page is where it was, unless its frame is taken. */
  lemma UnusedStays(s: Vm, kind: int, pid: int, vpn: int, page: (int, int))
    requires VmInv(s, -1) && Quiet(s) && kind in {PAGE_DIR, PAGE_TAB, PAGE} && pid > 0 && Unused(s, page)
    requires GetFrame(s, GCA, kind, pid, vpn).Got? && GetFrame(s, GCA, kind, pid, vpn).frame != s.at[page]
    ensures var s' := GetFrame(s, GCA, kind, pid, vpn).s; Unused(s', page) && s'.at[page] == s.at[page]
  {
    hide VmInv, Quiet, Without, Mapped;
    var g := GetFrame(s, GCA, kind, pid, vpn);
    ListIs(s);
    Clock(s);
    if FirstFree(s.own, 0) == |s.own| {
      ChoiceIs(s, GCA);
      SweepClears(s.bits, s.res, StartPlace(s));
      var c := Choose(s, GCA);
      var s1 := s.(bits := c.bits, hand := c.hand);
      PageAt(s1, c.frame);
      EvictedFacts(s1, c.frame);
      EvictedPage(s1, c.frame, page);
    }
  }

  lemma EvictedPage(s: Vm, f: int, page: (int, int))
    requires Sized(s) && 0 <= f < |s.own| && s.own[f].PageOf? && Mapped(s, s.own[f].pid, s.own[f].vpn)
    requires page in s.at && 0 <= s.at[page] < |s.own| && s.at[page] != f && s.own[s.at[page]] == PageOf(page.0, page.1)
    requires VmInv(s, -1)
    ensures var s' := Evicted(s, f); page in s'.at && s'.at[page] == s.at[page] && |s'.own| == |s.own| && s'.own[s.at[page]] == s.own[s.at[page]]
  {
    assert VmInvSpelledOut(s);
    assert Owned(s, f);
    var pid, idx := s.own[f].pid, s.own[f].vpn / 1024;
    if (pid, idx) in s.tab {
      assert InFrames(s, s.tab[(pid, idx)], TabOf(pid, idx));
    }
  }

  /** An unused page that the clock comes to before another is replaced before it. */
  lemma FirstGoesFirst(s: Vm, kind: int, pid: int, vpn: int, first: (int, int), second: (int, int))
    requires VmInv(s, -1) && Quiet(s) && kind in {PAGE_DIR, PAGE_TAB, PAGE} && pid > 0 && InOrder(s, first, second)
    requires GetFrame(s, GCA, kind, pid, vpn).Got?
    ensures var g := GetFrame(s, GCA, kind, pid, vpn);
      && g.frame != s.at[second] && (g.frame != s.at[first] ==> InOrder(g.s, first, second))
      && (g.frame == s.at[first] ==> first !in g.s.at)
      && Unused(g.s, second) && g.s.at[second] == s.at[second]
  {
    hide VmInv, Quiet, Without, Ahead, Unused, Rank;
    var g := GetFrame(s, GCA, kind, pid, vpn);
    if FirstFree(s.own, 0) < |s.own| {
      FreeInOrder(s, kind, pid, vpn, first, second);
    } else {
      ReplacedInOrder(s, kind, pid, vpn, first, second);
    }
  }

  lemma FreeGot(s: Vm, kind: int, pid: int, vpn: int)
    requires VmInv(s, -1) && Quiet(s) && FirstFree(s.own, 0) < |s.own|
    ensures GetFrame(s, GCA, kind, pid, vpn) == Got(ClaimedBy(s, FirstFree(s.own, 0), kind, pid, vpn), FirstFree(s.own, 0))
  {
  }

  lemma FreeInOrder(s: Vm, kind: int, pid: int, vpn: int, first: (int, int), second: (int, int))
    requires VmInv(s, -1) && Quiet(s) && kind in {PAGE_DIR, PAGE_TAB, PAGE} && pid > 0 && InOrder(s, first, second)
    requires FirstFree(s.own, 0) < |s.own|
    ensures var g := GetFrame(s, GCA, kind, pid, vpn);
      && g.Got? && g.frame != s.at[second] && g.frame != s.at[first] && InOrder(g.s, first, second)
      && Unused(g.s, second) && g.s.at[second] == s.at[second]
  {
    hide VmInv, Quiet, GetFrame, Until, Ahead, Unused, HandKnown;
    var g := GetFrame(s, GCA, kind, pid, vpn);
    FreeGot(s, kind, pid, vpn);
    ListIs(s);
    FrameHand(s, GCA, kind, pid, vpn);
    FreeUnused(s, kind, pid, vpn, first);
    FreeUnused(s, kind, pid, vpn, second);
    if s.hand != TailOf(s) {
      FreeAhead(s, kind, pid, vpn, s.at[first], s.at[second]);
    }
  }

  lemma FreeUnused(s: Vm, kind: int, pid: int, vpn: int, page: (int, int))
    requires FirstFree(s.own, 0) < |s.own| && Unused(s, page)
    ensures page in s.at && FirstFree(s.own, 0) != s.at[page]
    ensures var s' := ClaimedBy(s, FirstFree(s.own, 0), kind, pid, vpn); Unused(s', page) && s'.at[page] == s.at[page]
  {
  }

  lemma FreeAhead(s: Vm, kind: int, pid: int, vpn: int, f: int, g: int)
    requires VmInv(s, -1) && Quiet(s) && FirstFree(s.own, 0) < |s.own| && Ahead(s, f, g) && HandKnown(s) && s.hand != TailOf(s)
    ensures Ahead(ClaimedBy(s, FirstFree(s.own, 0), kind, pid, vpn), f, g)
  {
    hide VmInv, Quiet, Distance, IndexOf;
    ListIs(s);
    var x := FirstFree(s.own, 0);
    if kind == PAGE {
      OneMore(s.res, x);
      AheadLonger(s, ClaimedBy(s, x, kind, pid, vpn), x, f, g);
    }
  }

  lemma ReplacedInOrder(s: Vm, kind: int, pid: int, vpn: int, first: (int, int), second: (int, int))
    requires VmInv(s, -1) && Quiet(s) && kind in {PAGE_DIR, PAGE_TAB, PAGE} && pid > 0 && InOrder(s, first, second)
    requires FirstFree(s.own, 0) == |s.own| && GetFrame(s, GCA, kind, pid, vpn).Got?
    ensures var g := GetFrame(s, GCA, kind, pid, vpn);
      && g.frame != s.at[second] && (g.frame != s.at[first] ==> InOrder(g.s, first, second))
      && (g.frame == s.at[first] ==> first !in g.s.at)
      && Unused(g.s, second) && g.s.at[second] == s.at[second]
  {
    hide VmInv, Quiet, Without, GetFrame, Ahead;
    var i := VictimIs(s, kind, pid, vpn, first, second);
    var g := GetFrame(s, GCA, kind, pid, vpn);
    HandAt(s, kind, pid, vpn, i);
    FrameHand(s, GCA, kind, pid, vpn);
    UnusedStays(s, kind, pid, vpn, second);
    if g.frame != s.at[first] {
      UnusedStays(s, kind, pid, vpn, first);
      if i > 0 {
        ListIs(s);
        GetFrameResidents(s, GCA, kind, pid, vpn);
        AheadReplaced(s, g.s, i, kind == PAGE, s.at[first], s.at[second]);
      }
    } else {
      TakenGone(s, kind, pid, vpn, first);
    }
  }

  /** The page whose frame is taken is no longer resident. */
  lemma TakenGone(s: Vm, kind: int, pid: int, vpn: int, page: (int, int))
    requires VmInv(s, -1) && Quiet(s) && FirstFree(s.own, 0) == |s.own| && Unused(s, page)
    requires GetFrame(s, GCA, kind, pid, vpn).Got? && GetFrame(s, GCA, kind, pid, vpn).frame == s.at[page]
    ensures page !in GetFrame(s, GCA, kind, pid, vpn).s.at
  {
    hide VmInv, Quiet, Without, Mapped;
    ChoiceIs(s, GCA);
    var c := Choose(s, GCA);
    var s1 := s.(bits := c.bits, hand := c.hand);
    PageAt(s1, c.frame);
    EvictedFacts(s1, c.frame);
  }

  /** Which page is replaced: the first, or one that the clock comes to before both. */
  lemma VictimIs(s: Vm, kind: int, pid: int, vpn: int, first: (int, int), second: (int, int)) returns (i: int)
    requires VmInv(s, -1) && Quiet(s) && kind in {PAGE_DIR, PAGE_TAB, PAGE} && pid > 0 && InOrder(s, first, second)
    requires FirstFree(s.own, 0) == |s.own| && GetFrame(s, GCA, kind, pid, vpn).Got?
    ensures Picks(s, GCA, i) && 0 <= i < |s.res| && s.hand != TailOf(s) && HandOk(s) && s.res[i] != s.at[second]
    ensures s.res[i] != s.at[first] ==> Until(s, s.res[i]) < Until(s, s.at[first])
  {
    hide VmInv, Quiet, Sweep, Mapped, ClockOk, Rank, Distance, GetFrame;
    ListIs(s);
    GotChooses(s, kind, pid, vpn);
    PicksIs(s, GCA);
    i :| Picks(s, GCA, i);
    var k, j, m := StartPlace(s), IndexOf(s.res, s.at[first]), IndexOf(s.res, s.at[second]);
    IndexIs(s.res, i);
    if i != j {
      ClearRank(s.bits, s.res, k, i, j);
    }
    IndexIs(s.res, j);
    IndexIs(s.res, m);
  }

  lemma GotChooses(s: Vm, kind: int, pid: int, vpn: int)
    requires VmInv(s, -1) && Quiet(s) && FirstFree(s.own, 0) == |s.own| && GetFrame(s, GCA, kind, pid, vpn).Got?
    ensures |s.bits| == |s.own| && (s.res != [] ==> ClockOk(s.bits, s.res)) && Choose(s, GCA).Replace?
  {
    ChoiceIs(s, GCA);
  }

  /** A page that has no higher rank than one with clear bits comes no later in the sweep. */
  lemma ClearRank(bits: seq<Bits>, res: seq<int>, k: int, i: int, j: int)
    requires Least(bits, res, k, i) && 0 <= k < |res| && 0 <= j < |res| && 0 <= res[j] < |bits| && bits[res[j]] == Bits(false, false) && i != j
    ensures Distance(|res|, k, i) < Distance(|res|, k, j)
  {
    assert Rank(bits, res, k, i) <= Rank(bits, res, k, j);
  }

  // ---- faults and accesses

  /** What does not move the hand, the list or the two pages. */
  lemma SameOrder(s: Vm, s': Vm, first: (int, int), second: (int, int))
    requires InOrder(s, first, second) && s'.res == s.res && s'.hand == s.hand && |s'.own| == |s.own|
    requires Unused(s', first) && Unused(s', second) && s'.at[first] == s.at[first] && s'.at[second] == s.at[second]
    ensures InOrder(s', first, second)
  {
  }

  /** The first page has gone, or both are as they were. */
  ghost predicate Turns(s: Vm, first: (int, int), second: (int, int)) { first in s.at ==> InOrder(s, first, second) }

  lemma TableTurns(s: Vm, pid: int, idx: int, first: (int, int), second: (int, int))
    requires VmInv(s, -1) && Quiet(s) && pid in s.dir && pid > 0 && 4 <= idx < 576 && Turns(s, first, second) && TableFor(s, GCA, pid, idx).Got?
    ensures Turns(TableFor(s, GCA, pid, idx).s, first, second)
  {
    hide VmInv, Quiet, GetFrame, Ahead, HandKnown;
    TableForKeeps(s, GCA, pid, idx);
    if (pid, idx) !in s.tab && first in s.at {
      var g := GetFrame(s, GCA, PAGE_TAB, pid, 0);
      GetFrameKeeps(s, GCA, PAGE_TAB, pid, 0);
      FirstGoesFirst(s, PAGE_TAB, pid, 0, first, second);
      if first in g.s.at && g.frame != s.at[first] {
        SameOrder(g.s, TabMapped(g.s, g.frame, pid, idx), first, second);
      }
    }
  }

  lemma MappedTurns(s: Vm, f: int, pid: int, vpn: int, first: (int, int), second: (int, int))
    requires Sized(s) && 0 <= f < |s.own| && s.own[f].Claimed? && Mapped(s, pid, vpn) && Turns(s, first, second) && (pid, vpn) != first && (pid, vpn) != second
    ensures Turns(PageMapped(s, f, pid, vpn), first, second)
  {
    hide Ahead, HandKnown, Mapped;
    if first in s.at {
      SameOrder(s, PageMapped(s, f, pid, vpn), first, second);
    }
  }

  lemma FaultTurns(s: Vm, pid: int, vpn: int, first: (int, int), second: (int, int))
    requires VmInv(s, -1) && Quiet(s) && Mapped(s, pid, vpn) && pid in s.dir && pid > 0 && 4 <= vpn / 1024 < 576
    requires Turns(s, first, second) && (pid, vpn) != first && (pid, vpn) != second && Fault(s, GCA, pid, vpn).Loaded?
    ensures Turns(Fault(s, GCA, pid, vpn).s, first, second)
  {
    hide VmInv, Quiet, GetFrame, TableFor, InOrder;
    TableForKeeps(s, GCA, pid, vpn / 1024);
    TableTurns(s, pid, vpn / 1024, first, second);
    var s0 := TableFor(s, GCA, pid, vpn / 1024).s;
    GetFrameKeeps(s0, GCA, PAGE, pid, vpn);
    var g := GetFrame(s0, GCA, PAGE, pid, vpn);
    if first in s0.at {
      FirstGoesFirst(s0, PAGE, pid, vpn, first, second);
    }
    MappedTurns(g.s, g.frame, pid, vpn, first, second);
  }

  /** Only the page asked for can become resident. */
  lemma BroughtPages(s: Vm, policy: int, pid: int, vpn: int)
    requires VmInv(s, -1) && Quiet(s) && Mapped(s, pid, vpn) && pid in s.dir && pid > 0 && 4 <= vpn / 1024 < 576
    requires Brought(s, policy, pid, vpn).Loaded?
    ensures forall k :: k in Brought(s, policy, pid, vpn).s.at ==> k in s.at || k == (pid, vpn)
  {
    hide VmInv, Quiet, GetFrame, TableFor;
    TableForKeeps(s, policy, pid, vpn / 1024);
    if TableFor(s, policy, pid, vpn / 1024).Got? {
      GetFrameKeeps(TableFor(s, policy, pid, vpn / 1024).s, policy, PAGE, pid, vpn);
    }
  }

  lemma AccessTurns(s: Vm, op: MemOp, f: int, pg: Page, first: (int, int), second: (int, int))
    requires VmInv(s, -1) && (op.pid, op.vpn) in s.at && s.at[(op.pid, op.vpn)] == f && 0 <= f < |s.own| == |s.bits| == |s.data|
    requires Turns(s, first, second) && (op.pid, op.vpn) != first && (op.pid, op.vpn) != second
    ensures Turns(Accessed(s, f, op.Store?, pg), first, second)
  {
    hide Ahead, HandKnown;
    assert VmInvSpelledOut(s);
    assert InFrames(s, f, PageOf(op.pid, op.vpn));
    if first in s.at {
      SameOrder(s, Accessed(s, f, op.Store?, pg), first, second);
    }
  }

  lemma TouchTurns(s: Vm, op: MemOp, first: (int, int), second: (int, int))
    requires CanTouch(s, GCA, op) && Turns(s, first, second) && (op.pid, op.vpn) != first && (op.pid, op.vpn) != second
    ensures Turns(Touched(s, GCA, op), first, second)
    ensures first !in s.at ==> first !in Touched(s, GCA, op).at
  {
    hide VmInv, Quiet, Fault, Turns;
    BroughtKeeps(s, GCA, op.pid, op.vpn);
    BroughtPages(s, GCA, op.pid, op.vpn);
    if (op.pid, op.vpn) !in s.at {
      FaultTurns(s, op.pid, op.vpn, first, second);
    }
    var b := Brought(s, GCA, op.pid, op.vpn);
    BitsSized(b.s);
    AccessTurns(b.s, op, b.frame, if op.Store? then op.pg else b.s.data[b.frame], first, second);
  }

  lemma BitsSized(s: Vm)
    requires VmInv(s, -1)
    ensures |s.own| == |s.bits| == |s.data|
  {
  }

  /** Nobody uses the page. */
  ghost predicate LeftAlone(ops: seq<MemOp>, page: (int, int)) { forall i :: 0 <= i < |ops| ==> (ops[i].pid, ops[i].vpn) != page }

  /** Over every run of accesses, with whatever faults and replacements they cause: of two resident pages
      that nobody uses, the one that the clock comes to first is replaced first. While it is resident,
      so is the other; and once replaced it does not come back. */
  lemma {:induction false} ReplacedInTurn(s: Vm, ops: seq<MemOp>, first: (int, int), second: (int, int))
    requires InOrder(s, first, second) && LeftAlone(ops, first) && LeftAlone(ops, second) && Touches(s, GCA, ops).0 == |ops|
    ensures var s' := Touches(s, GCA, ops).1; Turns(s', first, second) && (first in s'.at ==> second in s'.at)
  {
    hide InOrder, CanTouch, Touched;
    InOrderIn(s, first, second);
    if ops != [] {
      var k := |ops| - 1;
      ReplacedInTurn(s, ops[..k], first, second);
      var s1 := Touches(s, GCA, ops[..k]).1;
      assert Touches(s, GCA, ops).1 == Touched(s1, GCA, ops[k]);
      TouchTurns(s1, ops[k], first, second);
      if first in Touched(s1, GCA, ops[k]).at {
        InOrderIn(Touched(s1, GCA, ops[k]), first, second);
      }
    }
  }

  lemma InOrderIn(s: Vm, first: (int, int), second: (int, int))
    requires InOrder(s, first, second)
    ensures first in s.at && second in s.at
  {
  }

  // ---- what the clock looks at

  /** As long as a frame is unused, no page is replaced: the lowest such frame is taken. */
  lemma FreeFirst(s: Vm, policy: int, kind: int, pid: int, vpn: int, f: int)
    requires VmInv(s, -1) && Quiet(s) && 0 <= f < |s.own| && s.own[f] == NoOne
    ensures var g := GetFrame(s, policy, kind, pid, vpn);
      && g.Got? && 0 <= g.frame <= f && s.own[g.frame] == NoOne && (forall h :: 0 <= h < g.frame ==> s.own[h] != NoOne)
      && g.s == s.(own := s.own[g.frame := Claimed(kind, pid, vpn)], res := g.s.res)
  {
  }

  /** After an access its page is marked: accessed, and dirty exactly if the access wrote or it was so
      before. A page that has just been brought in is the newest, and was neither. */
  lemma TouchMarks(s: Vm, policy: int, op: MemOp)
    requires CanTouch(s, policy, op)
    ensures var (s', page) := (Touched(s, policy, op), (op.pid, op.vpn));
      && page in s'.at && 0 <= s'.at[page] < |s'.bits| && s'.bits[s'.at[page]].acc
      && (page in s.at ==> 0 <= s.at[page] < |s.bits| && s'.at == s.at && s'.res == s.res && s'.bits[s'.at[page]].dirty == (op.Store? || s.bits[s.at[page]].dirty))
      && (page !in s.at ==> s'.res != [] && s'.res[0] == s'.at[page] && s'.bits[s'.at[page]].dirty == op.Store?)
  {
    hide VmInv, Quiet, GetFrame, TableFor, Mapped;
    BroughtKeeps(s, policy, op.pid, op.vpn);
    var b := Brought(s, policy, op.pid, op.vpn);
    BitsSized(s);
    BitsSized(b.s);
    if (op.pid, op.vpn) !in s.at {
      FaultNewest(s, policy, op.pid, op.vpn);
    }
  }

  lemma FaultNewest(s: Vm, policy: int, pid: int, vpn: int)
    requires VmInv(s, -1) && Quiet(s) && Mapped(s, pid, vpn) && pid in s.dir && pid > 0 && 4 <= vpn / 1024 < 576
    requires Fault(s, policy, pid, vpn).Loaded?
    ensures var b := Fault(s, policy, pid, vpn);
      b.s.res != [] && b.s.res[0] == b.frame && 0 <= b.frame < |b.s.bits| && b.s.bits[b.frame] == Bits(false, false)
  {
    hide VmInv, Quiet, TableFor, Mapped, GetFrame;
    TableForKeeps(s, policy, pid, vpn / 1024);
    var s0 := TableFor(s, policy, pid, vpn / 1024).s;
    GetFrameKeeps(s0, policy, PAGE, pid, vpn);
    GetFrameResidents(s0, policy, PAGE, pid, vpn);
    BitsSized(GetFrame(s0, policy, PAGE, pid, vpn).s);
  }

  /** A second chance: a page that has just been used is not the next to be replaced by the clock while
      any resident page is unused. */
  lemma SecondChance(s: Vm, op: MemOp, i: int, other: (int, int))
    requires CanTouch(s, GCA, op) && Picks(Touched(s, GCA, op), GCA, i) && VmInv(Touched(s, GCA, op), -1) && Quiet(Touched(s, GCA, op))
    requires Unused(Touched(s, GCA, op), other)
    ensures var s' := Touched(s, GCA, op); 0 <= i < |s'.res| && (op.pid, op.vpn) in s'.at && s'.res[i] != s'.at[(op.pid, op.vpn)]
  {
    hide VmInv, Quiet, Touched, CanTouch, Distance;
    var s' := Touched(s, GCA, op);
    TouchMarks(s, GCA, op);
    PicksIs(s', GCA);
    ListIs(s');
    var j := IndexOf(s'.res, s'.at[other]);
    DistanceBound(|s'.res|, StartPlace(s'), i);
    DistanceBound(|s'.res|, StartPlace(s'), j);
    assert Rank(s'.bits, s'.res, StartPlace(s'), i) <= Rank(s'.bits, s'.res, StartPlace(s'), j);
  }

  lemma DistanceBound(n: int, k: int, j: int)
    requires 0 <= k < n && 0 <= j < n
    ensures 0 <= Distance(n, k, j) < n
  {
  }
}
