/** The steps of the paging code: claiming and using frames, choosing the page to replace,
    page faults, accesses, and the end of a process. */
module VmSteps {
  import opened LfsDisk
  import opened BackingStore
  import opened VmSpec

  // ---- using a claimed frame

  lemma DirMappedKeeps(s: Vm, f: int, pid: int)
    requires VmInv(s, -1) && 0 <= f < |s.own| && s.own[f] == Claimed(PAGE_DIR, pid, 0) && pid !in s.dir
    ensures VmInv(DirMapped(s, f, pid), -1) && SameMemory(s, DirMapped(s, f, pid))
  {
    hide FindStore, StoresOk;
    assert VmInvSpelledOut(s);
    var s' := DirMapped(s, f, pid);
    assert Owned(s, f);
    forall g | 0 <= g < |s'.own|
      ensures Owned(s', g)
    {
      assert Owned(s, g);
    }
    assert Frames(s');
    assert VmCore(s', -1);
  }

  lemma TabMappedKeeps(s: Vm, f: int, pid: int, idx: int)
    requires VmInv(s, -1) && 0 <= f < |s.own| && s.own[f] == Claimed(PAGE_TAB, pid, 0) && (pid, idx) !in s.tab
    requires pid in s.dir && 4 <= idx < 576
    ensures VmInv(TabMapped(s, f, pid, idx), -1) && SameMemory(s, TabMapped(s, f, pid, idx))
  {
    hide FindStore, StoresOk;
    assert VmInvSpelledOut(s);
    var s' := TabMapped(s, f, pid, idx);
    assert Owned(s, f);
    forall g | 0 <= g < |s'.own|
      ensures Owned(s', g)
    {
      assert Owned(s, g);
    }
    assert Frames(s');
    forall p, v | (p, v) in s'.at
      ensures Mapped(s', p, v) && 0 <= v && (p, v / 1024) in s'.tab
    {
      assert (p, v) in s.at;
      assert InFrames(s, s.at[(p, v)], PageOf(p, v)) && Owned(s, s.at[(p, v)]);
    }
    assert VmCore(s', -1);
  }

  lemma PageMappedFrames(s: Vm, f: int, pid: int, vpn: int)
    requires VmInv(s, -1) && 0 <= f < |s.own| && s.own[f] == Claimed(PAGE, pid, vpn) && (pid, vpn) !in s.at && Mapped(s, pid, vpn)
    ensures Frames(PageMapped(s, f, pid, vpn)) && Sized(PageMapped(s, f, pid, vpn)) && Resident(PageMapped(s, f, pid, vpn))
  {
    assert VmInvSpelledOut(s);
    var s' := PageMapped(s, f, pid, vpn);
    assert Owned(s, f);
    forall g | 0 <= g < |s'.own|
      ensures Owned(s', g)
    {
      assert Owned(s, g);
    }
  }

  lemma PageMappedKeeps(s: Vm, f: int, pid: int, vpn: int)
    requires VmInv(s, -1) && 0 <= f < |s.own| && s.own[f] == Claimed(PAGE, pid, vpn) && (pid, vpn) !in s.at && Mapped(s, pid, vpn)
    requires (pid, vpn / 1024) in s.tab && 0 <= vpn
    ensures VmInv(PageMapped(s, f, pid, vpn), -1) && SameMemory(s, PageMapped(s, f, pid, vpn))
  {
    assert VmInvSpelledOut(s);
    var s' := PageMapped(s, f, pid, vpn);
    PageMappedFrames(s, f, pid, vpn);
    MappedSlot(s, pid, vpn);
    forall p, v | (p, v) in s'.at
      ensures Mapped(s', p, v) && 0 <= v && (p, v / 1024) in s'.tab
    {
      if (p, v) != (pid, vpn) {
        assert (p, v) in s.at;
        assert InFrames(s, s.at[(p, v)], PageOf(p, v)) && Owned(s, s.at[(p, v)]);
      } else {
        assert Owned(s, f);
      }
    }
    assert VmCore(s', -1);
    forall p, v | Mapped(s, p, v)
      ensures Mem(s', p, v) == Mem(s, p, v)
    {
      if (p, v) in s.at {
        assert InFrames(s, s.at[(p, v)], PageOf(p, v));
      }
    }
  }

  // ---- accesses by the process itself: the processor sets the bits

  /** The page after an access that replaces its contents by pg, if it is a write. */
  function Accessed(s: Vm, f: int, write: bool, pg: Page): Vm
    requires 0 <= f < |s.own| == |s.bits| == |s.data|
  {
    s.(bits := s.bits[f := Bits(true, s.bits[f].dirty || write)], data := if write then s.data[f := pg] else s.data)
  }

  /** An access to a resident page changes that page of flat memory and no other. */
  lemma AccessChanges(s: Vm, pid: int, vpn: int, write: bool, pg: Page)
    requires VmInv(s, -1) && (pid, vpn) in s.at
    ensures InFrames(s, s.at[(pid, vpn)], PageOf(pid, vpn))
    ensures var s' := Accessed(s, s.at[(pid, vpn)], write, pg);
      && VmInv(s', -1)
      && (forall p, v :: Mapped(s, p, v) ==> Mem(s', p, v) == if write && (p, v) == (pid, vpn) then pg else Mem(s, p, v))
  {
    assert VmInvSpelledOut(s);
    var f := s.at[(pid, vpn)];
    assert InFrames(s, f, PageOf(pid, vpn));
    var s' := Accessed(s, f, write, pg);
    forall g | 0 <= g < |s'.own|
      ensures Owned(s', g)
    {
      assert Owned(s, g);
    }
    assert Frames(s');
    assert Nested(s', -1) by {
      forall p, v | (p, v) in s'.at
        ensures Mapped(s', p, v) && 0 <= v && (p, v / 1024) in s'.tab
      {
        assert (p, v) in s.at;
        assert InFrames(s, s.at[(p, v)], PageOf(p, v)) && Owned(s, s.at[(p, v)]);
      }
    }
    assert VmCore(s', -1);
    forall p, v | Mapped(s, p, v)
      ensures Mem(s', p, v) == if write && (p, v) == (pid, vpn) then pg else Mem(s, p, v)
    {
      if (p, v) in s.at {
        assert InFrames(s, s.at[(p, v)], PageOf(p, v));
      }
    }
  }

  // ---- the clock

  function Weight1(b: Bits): nat { (if b.acc then 1 else 0) + if b.dirty then 1 else 0 }

  /** The bits that are set among the resident pages. */
  function Weight(bits: seq<Bits>, res: seq<int>): nat {
    if res == [] then 0
    else (if 0 <= res[0] < |bits| then Weight1(bits[res[0]]) else 0) + Weight(bits, res[1..])
  }

  lemma {:induction false} WeightBound(bits: seq<Bits>, res: seq<int>)
    ensures Weight(bits, res) <= 2 * |res|
  {
    if res != [] {
      WeightBound(bits, res[1..]);
    }
  }

  lemma {:induction false} WeightFrame(bits: seq<Bits>, res: seq<int>, f: int, b: Bits)
    requires 0 <= f < |bits| && f !in res
    ensures Weight(bits[f := b], res) == Weight(bits, res)
  {
    if res != [] {
      assert res == [res[0]] + res[1..];
      WeightFrame(bits, res[1..], f, b);
    }
  }

  lemma {:induction false} WeightUpdate(bits: seq<Bits>, res: seq<int>, k: nat, b: Bits)
    requires k < |res| && 0 <= res[k] < |bits| && forall i, j :: 0 <= i < |res| && 0 <= j < |res| && i != j ==> res[i] != res[j]
    ensures Weight(bits[res[k] := b], res) == Weight(bits, res) - Weight1(bits[res[k]]) + Weight1(b)
  {
    var t := res[1..];
    if k == 0 {
      assert res[0] !in t;
      WeightFrame(bits, t, res[0], b);
    } else {
      assert t[k - 1] == res[k];
      WeightUpdate(bits, t, k - 1, b);
    }
  }

  /** The page examined after place k: the next newer one, or the oldest after the newest. */
  function NextPlace(n: nat, k: int): int { if k == 0 then n - 1 else k - 1 }

  ghost predicate ClockOk(bits: seq<Bits>, res: seq<int>) {
    && res != []
    && (forall i, j :: 0 <= i < |res| && 0 <= j < |res| && i != j ==> res[i] != res[j])
    && (forall j :: 0 <= j < |res| ==> 0 <= res[j] < |bits| && (bits[res[j]].dirty ==> bits[res[j]].acc))
  }

  /** One examination that does not select: the dirty bit goes first, then the accessed bit. */
  function Aged(b: Bits): Bits { if b.dirty then Bits(b.acc, false) else Bits(false, false) }

  lemma AgedKeeps(bits: seq<Bits>, res: seq<int>, k: nat)
    requires ClockOk(bits, res) && k < |res| && Weight1(bits[res[k]]) > 0
    ensures ClockOk(bits[res[k] := Aged(bits[res[k]])], res)
    ensures Weight(bits[res[k] := Aged(bits[res[k]])], res) == Weight(bits, res) - 1
  {
    WeightUpdate(bits, res, k, Aged(bits[res[k]]));
  }

  /** The clock from place k: the place it selects, the bits it leaves, and how many pages it
      examines. */
  function Sweep(bits: seq<Bits>, res: seq<int>, k: int): (r: (int, seq<Bits>, nat))
    requires ClockOk(bits, res) && 0 <= k < |res|
    ensures 0 <= r.0 < |res| && |r.1| == |bits| && r.2 <= Weight(bits, res) + 1 && ClockOk(r.1, res)
    ensures r.1[res[r.0]] == Bits(false, false)
    decreases Weight(bits, res)
  {
    if Weight1(bits[res[k]]) == 0 then (k, bits, 1)
    else
      AgedKeeps(bits, res, k);
      var r := Sweep(bits[res[k] := Aged(bits[res[k]])], res, NextPlace(|res|, k));
      (r.0, r.1, r.2 + 1)
  }

  /** The clock only clears bits, and only of resident pages. */
  lemma {:induction false} SweepClears(bits: seq<Bits>, res: seq<int>, k: int)
    requires ClockOk(bits, res) && 0 <= k < |res|
    ensures var bits' := Sweep(bits, res, k).1;
      forall f :: 0 <= f < |bits| ==> (bits'[f].acc ==> bits[f].acc) && (bits'[f].dirty ==> bits[f].dirty) && (f !in res ==> bits'[f] == bits[f])
    decreases Weight(bits, res)
  {
    if Weight1(bits[res[k]]) > 0 {
      AgedKeeps(bits, res, k);
      assert res[k] in res;
      SweepClears(bits[res[k] := Aged(bits[res[k]])], res, NextPlace(|res|, k));
    }
  }

  /** How many places the clock moves on from k before it is at j. */
  function Distance(n: nat, k: int, j: int): int { if j <= k then k - j else k - j + n }

  /** In how many examinations from place k the page at place i would be found clear, if the clock
      did not stop before. */
  function Rank(bits: seq<Bits>, res: seq<int>, k: int, i: int): int
    requires 0 <= i < |res| && 0 <= res[i] < |bits|
  {
    var w := Weight1(bits[res[i]]);
    (if w == 0 then 0 else if w == 1 then |res| else |res| + |res|) + Distance(|res|, k, i)
  }

  /** No page has a lower rank than the one at place i. */
  ghost predicate Least(bits: seq<Bits>, res: seq<int>, k: int, i: int) {
    && 0 <= i < |res| && (forall j :: 0 <= j < |res| ==> 0 <= res[j] < |bits|)
    && forall j :: 0 <= j < |res| ==> Rank(bits, res, k, i) <= Rank(bits, res, k, j)
  }

  /** Every examination that does not select takes one off every rank. */
  lemma AgedRank(bits: seq<Bits>, res: seq<int>, k: int, j: int)
    requires ClockOk(bits, res) && 0 <= k < |res| && 0 <= j < |res| && Weight1(bits[res[k]]) > 0
    ensures Rank(bits[res[k] := Aged(bits[res[k]])], res, NextPlace(|res|, k), j) == Rank(bits, res, k, j) - 1
  {
  }

  /** The clock selects the page of the lowest rank, and examines one page more than that rank. */
  lemma {:induction false} SweepLeast(bits: seq<Bits>, res: seq<int>, k: int)
    requires ClockOk(bits, res) && 0 <= k < |res|
    ensures var r := Sweep(bits, res, k); Least(bits, res, k, r.0) && r.2 == Rank(bits, res, k, r.0) + 1
    decreases Weight(bits, res)
  {
    var r := Sweep(bits, res, k);
    if Weight1(bits[res[k]]) > 0 {
      var bits', k' := bits[res[k] := Aged(bits[res[k]])], NextPlace(|res|, k);
      AgedKeeps(bits, res, k);
      SweepLeast(bits', res, k');
      forall j | 0 <= j < |res|
        ensures Rank(bits, res, k, r.0) <= Rank(bits, res, k, j)
      {
        AgedRank(bits, res, k, j);
      }
      AgedRank(bits, res, k, r.0);
    }
  }

  /** What the sweep leaves: seen from where it ends, every page has the rank it had, less that of the
      selected one. */
  lemma {:induction false} SweepRanks(bits: seq<Bits>, res: seq<int>, k: int, j: int)
    requires ClockOk(bits, res) && 0 <= k < |res| && 0 <= j < |res|
    ensures var r := Sweep(bits, res, k); Rank(r.1, res, r.0, j) == Rank(bits, res, k, j) - Rank(bits, res, k, r.0)
    decreases Weight(bits, res)
  {
    if Weight1(bits[res[k]]) > 0 {
      var bits', k' := bits[res[k] := Aged(bits[res[k]])], NextPlace(|res|, k);
      AgedKeeps(bits, res, k);
      SweepRanks(bits', res, k', j);
      AgedRank(bits, res, k, j);
      AgedRank(bits, res, k, Sweep(bits, res, k).0);
    }
  }

  /** Only one page has the lowest rank. */
  lemma LeastOnly(bits: seq<Bits>, res: seq<int>, k: int, i: int, j: int)
    requires ClockOk(bits, res) && 0 <= k < |res| && Least(bits, res, k, i) && Least(bits, res, k, j)
    ensures i == j
  {
    assert Rank(bits, res, k, i) == Rank(bits, res, k, j);
  }

  /** If some page has both bits clear, the first such page in clock order is selected. */
  lemma SweepFirst(bits: seq<Bits>, res: seq<int>, k: int, j: int)
    requires ClockOk(bits, res) && 0 <= k < |res| && 0 <= j < |res| && Weight1(bits[res[j]]) == 0
    requires forall i :: 0 <= i < |res| && Distance(|res|, k, i) < Distance(|res|, k, j) ==> Weight1(bits[res[i]]) > 0
    ensures Sweep(bits, res, k).0 == j && Sweep(bits, res, k).2 == Distance(|res|, k, j) + 1
  {
    SweepLeast(bits, res, k);
    assert Least(bits, res, k, j);
    LeastOnly(bits, res, k, j, Sweep(bits, res, k).0);
  }
}
