/** How directories, page tables, the frame table and the resident list show the state of the
    virtual memory. */
module PagingTables {
  import opened DistinctLists
  import opened LfsDisk
  import opened BackingStore
  import opened Links
  import opened VmSpec
  import opened VmSteps
  import opened VmFaults
  import opened VmProcesses

  const FRAME0 := 1024

  /** pt_t and pd_t; the base counts pages of memory, so frame 0 is 1024. */
  datatype Pte = Pte(pres: bool, acc: bool, dirty: bool, base: int)

  datatype Pde = Pde(pres: bool, base: int)

  /** What a frame holds. */
  datatype Content = Data(page: Page) | Table(ptes: seq<Pte>) | Dir(pdes: seq<Pde>)

  /** struct ivent, but for its two links. */
  datatype Ivent = Ivent(valid: int, frame_number: int, pid: int, vpage_num: int, ref_count: int)

  function Vpn(idx: int, k: int): int { idx * 1024 + k }

  /** The present entries of a table. */
  function Present(ptes: seq<Pte>): nat {
    if ptes == [] then 0 else Present(ptes[..|ptes| - 1]) + if ptes[|ptes| - 1].pres then 1 else 0
  }

  lemma {:induction false} PresentUpdate(ptes: seq<Pte>, k: int, e: Pte)
    requires 0 <= k < |ptes|
    ensures Present(ptes[k := e]) == Present(ptes) - (if ptes[k].pres then 1 else 0) + (if e.pres then 1 else 0)
  {
    var n := |ptes| - 1;
    if k < n {
      assert ptes[k := e][..n] == ptes[..n][k := e];
      PresentUpdate(ptes[..n], k, e);
    } else {
      assert ptes[k := e][..n] == ptes[..n];
    }
  }

  lemma {:induction false} PresentNone(ptes: seq<Pte>)
    ensures Present(ptes) == 0 <==> forall k :: 0 <= k < |ptes| ==> !ptes[k].pres
  {
    if ptes != [] {
      var n := |ptes| - 1;
      PresentNone(ptes[..n]);
      if Present(ptes) == 0 {
        forall k | 0 <= k < |ptes|
          ensures !ptes[k].pres
        {
          if k < n {
            assert !ptes[..n][k].pres;
          }
        }
      }
    }
  }

  ghost predicate PdeShows(e: Pde, s: Vm, pid: int, idx: int) {
    && (e.pres <==> (pid, idx) in s.tab)
    && (e.pres ==> e.base == s.tab[(pid, idx)] + 1024)
  }

  /** The directory of process pid, as far as its heap goes. */
  ghost predicate DirShows(pdes: seq<Pde>, s: Vm, pid: int) {
    |pdes| == 1024 && forall idx {:trigger pdes[idx]} :: 4 <= idx < 576 ==> PdeShows(pdes[idx], s, pid, idx)
  }

  ghost predicate PteShows(e: Pte, s: Vm, pid: int, vpn: int) {
    && (e.pres <==> (pid, vpn) in s.at)
    && (e.pres ==> e.base == s.at[(pid, vpn)] + 1024 && 0 <= s.at[(pid, vpn)] < |s.bits| && Bits(e.acc, e.dirty) == s.bits[s.at[(pid, vpn)]])
  }

  ghost predicate TabShows(ptes: seq<Pte>, s: Vm, pid: int, idx: int) {
    |ptes| == 1024 && forall k {:trigger ptes[k]} :: 0 <= k < 1024 ==> PteShows(ptes[k], s, pid, Vpn(idx, k))
  }

  /** What the frame table and the frame itself say about frame f. */
  ghost predicate FrameShows(iv: Ivent, m: Content, s: Vm, f: int, dying: int)
    requires 0 <= f < |s.own| == |s.data|
  {
    && iv.frame_number == f && iv.valid == Kind(s.own[f])
    && match s.own[f]
       case NoOne => iv.ref_count == 0
       case Static(_) => iv.pid == 0
       case Claimed(k, pid, vpn) => iv.pid == pid && iv.ref_count == 0 && (k == PAGE ==> iv.vpage_num == vpn)
       case DirOf(pid) => iv.pid == pid && iv.ref_count == 0 && (pid != dying ==> m.Dir? && DirShows(m.pdes, s, pid))
       case TabOf(pid, idx) => iv.pid == pid && (pid != dying ==> m.Table? && TabShows(m.ptes, s, pid, idx) && iv.ref_count == Present(m.ptes))
       case PageOf(pid, vpn) => iv.pid == pid && iv.vpage_num == vpn && iv.ref_count == 0 && m == Data(s.data[f])
  }

  /** The resident list from the end at its newest page to the end at its oldest, along fifo_next. */
  function Chain(s: Vm): seq<int> { [TailOf(s)] + s.res + [HeadOf(s)] }

  /** Everything agrees; frame `skip` is between two uses. */
  ghost predicate ShowsAll(ivt: seq<Ivent>, links: seq<Link>, mem: seq<Content>, s: Vm, dying: int, skip: int) {
    && |ivt| == |links| == |s.own| + 2 && |mem| == |s.own| == |s.data|
    && Chained(links, Chain(s))
    && forall f {:trigger s.own[f]} :: 0 <= f < |s.own| && f != skip ==> FrameShows(ivt[f], mem[f], s, f, dying)
  }

  /** Marks the states for which a proof needs Shows spelled out. */
  ghost predicate ShowsSpelledOut(s: Vm) { true }

  /** ShowsAll, stated so that a proof that only passes it on need not look inside. */
  ghost predicate Shows(ivt: seq<Ivent>, links: seq<Link>, mem: seq<Content>, s: Vm, dying: int, skip: int) {
    && |ivt| == |links| == |s.own| + 2 && |mem| == |s.own| == |s.data|
    && forall x {:trigger ShowsSpelledOut(x)} :: x == s ==> ShowsAll(ivt, links, mem, x, dying, skip)
  }

  // ---- claiming a frame

  lemma ClaimShows(ivt: seq<Ivent>, links: seq<Link>, mem: seq<Content>, s: Vm, f: int, kind: int, pid: int, vpn: int)
    requires Shows(ivt, links, mem, s, -1, f) && 0 <= f < |s.own| && s.own[f] == NoOne && f !in s.res
    requires ivt[f].ref_count == 0 && ivt[f].frame_number == f && pid > 0
    requires forall j :: 0 <= j < |s.res| ==> 0 <= s.res[j] < |s.own|
    ensures var s' := ClaimedBy(s, f, kind, pid, vpn);
      && 0 <= links[TailOf(s)].next < |links|
      && Shows(ivt[f := ivt[f].(valid := kind, pid := pid, vpage_num := if kind == PAGE then vpn else ivt[f].vpage_num)],
               if kind == PAGE then Inserted(links, f, TailOf(s), links[TailOf(s)].next) else links, mem, s', -1, -1)
  {
    assert ShowsSpelledOut(s);
    var s' := ClaimedBy(s, f, kind, pid, vpn);
    var c := Chain(s);
    EndsAt(links, c);
    if kind == PAGE {
      InsertChained(links, c, 0, f);
      assert c[..1] + [f] + c[1..] == Chain(s');
    }
    var ivt' := ivt[f := ivt[f].(valid := kind, pid := pid, vpage_num := if kind == PAGE then vpn else ivt[f].vpage_num)];
    forall g | 0 <= g < |s'.own|
      ensures FrameShows(ivt'[g], mem[g], s', g, -1)
    {
      if g != f {
        assert s.own[g] == s'.own[g];
        FrameSame(ivt[g], mem[g], s, s', g, -1);
      }
    }
    assert ShowsAll(ivt', if kind == PAGE then Inserted(links, f, TailOf(s), links[TailOf(s)].next) else links, mem, s', -1, -1);
  }

  /** Frames whose tables and pages are as they were. */
  lemma FrameSame(iv: Ivent, m: Content, s: Vm, s': Vm, g: int, dying: int)
    requires 0 <= g < |s.own| == |s.data| == |s'.own| == |s'.data| && FrameShows(iv, m, s, g, dying)
    requires s'.own[g] == s.own[g] && s'.data[g] == s.data[g] && s'.tab == s.tab && s'.at == s.at && s'.bits == s.bits
    ensures FrameShows(iv, m, s', g, dying)
  {
    match s.own[g]
    case TabOf(pid, idx) =>
      if pid != dying {
        forall k | 0 <= k < 1024
          ensures PteShows(m.ptes[k], s', pid, Vpn(idx, k))
        {
          assert PteShows(m.ptes[k], s, pid, Vpn(idx, k));
        }
      }
    case DirOf(pid) =>
      if pid != dying {
        forall idx | 4 <= idx < 576
          ensures PdeShows(m.pdes[idx], s', pid, idx)
        {
          assert PdeShows(m.pdes[idx], s, pid, idx);
        }
      }
    case _ =>
  }

  // ---- replacing a page

  /** Where a resident page's entry is: in directory d, at idx, and in table b, at k. */
  lemma Lookup(ivt: seq<Ivent>, links: seq<Link>, mem: seq<Content>, s: Vm, f: int)
    requires Shows(ivt, links, mem, s, -1, -1) && VmInv(s, -1) && 0 <= f < |s.own| && s.own[f].PageOf?
    ensures var pid, idx, k := s.own[f].pid, s.own[f].vpn / 1024, s.own[f].vpn % 1024;
      && ivt[f].valid == PAGE && ivt[f].frame_number == f && ivt[f].pid == pid && ivt[f].vpage_num == s.own[f].vpn && ivt[f].ref_count == 0
      && mem[f] == Data(s.data[f])
      && pid > 0 && pid in s.dir && (pid, idx) in s.tab && 4 <= idx < 576 && 0 <= k < 1024 && s.own[f].vpn == Vpn(idx, k)
      && var d, b := s.dir[pid], s.tab[(pid, idx)];
         && 0 <= d < |mem| && 0 <= b < |mem| && d != b && b != f && d != f && s.own[d] == DirOf(pid) && s.own[b] == TabOf(pid, idx)
         && mem[d].Dir? && |mem[d].pdes| == 1024 && mem[d].pdes[idx] == Pde(true, b + 1024)
         && mem[b].Table? && |mem[b].ptes| == 1024 && mem[b].ptes[k] == Pte(true, s.bits[f].acc, s.bits[f].dirty, f + 1024)
         && ivt[b].valid == PAGE_TAB && ivt[b].ref_count == Present(mem[b].ptes) && ivt[b].pid == pid
  {
    assert ShowsSpelledOut(s);
    PageAt(s, f);
    assert VmInvSpelledOut(s);
    var pid, vpn := s.own[f].pid, s.own[f].vpn;
    var idx, k := vpn / 1024, vpn % 1024;
    assert vpn == Vpn(idx, k);
    assert (pid, idx) in s.tab && pid in s.dir;
    var d, b := s.dir[pid], s.tab[(pid, idx)];
    assert InFrames(s, d, DirOf(pid)) && InFrames(s, b, TabOf(pid, idx));
    assert FrameShows(ivt[f], mem[f], s, f, -1) && FrameShows(ivt[d], mem[d], s, d, -1) && FrameShows(ivt[b], mem[b], s, b, -1);
    assert PdeShows(mem[d].pdes[idx], s, pid, idx) && PteShows(mem[b].ptes[k], s, pid, Vpn(idx, k));
  }

  lemma {:induction false} WithoutAt(l: seq<int>, j: int)
    requires 0 <= j < |l| && Distinct(l)
    ensures Without(l, l[j]) == l[..j] + l[j + 1..]
  {
    var t := l[1..];
    if j == 0 {
      assert l[..0] + l[1..] == t;
    } else {
      assert t[j - 1] == l[j] && l[0] != l[j];
      WithoutAt(t, j - 1);
      assert [l[0]] + (t[..j - 1] + t[j..]) == l[..j] + l[j + 1..];
    }
  }

  /** Frame f out of the resident list, its links null. */
  function Unlinked(links: seq<Link>, f: int): seq<Link>
    requires 0 <= f < |links| && 0 <= links[f].prev < |links| && 0 <= links[f].next < |links|
  {
    Removed(links, f)[f := Link(NONE, NONE)]
  }

  lemma InnerDistinct(a: int, l: seq<int>, b: int)
    requires Distinct([a] + l + [b])
    ensures Distinct(l)
  {
    assert forall i :: 0 <= i < |l| ==> ([a] + l + [b])[i + 1] == l[i];
  }

  /** A chain without its entry j. */
  lemma UnlinkedChained(links: seq<Link>, c: seq<int>, j: int)
    requires Chained(links, c) && 0 < j < |c| - 1
    ensures 0 <= c[j] < |links| && 0 <= links[c[j]].prev < |links| && 0 <= links[c[j]].next < |links|
    ensures Chained(Unlinked(links, c[j]), c[..j] + c[j + 1..])
  {
    hide Joined;
    RemoveChained(links, c, j);
    var c' := c[..j] + c[j + 1..];
    forall i | 0 <= i < |c'|
      ensures 0 <= c'[i] < |links| && c'[i] != c[j]
    {
      assert c'[i] == if i < j then c[i] else c[i + 1];
    }
    ChainFrame(Removed(links, c[j]), Unlinked(links, c[j]), c');
  }

  lemma UnlinkChain(links: seq<Link>, s: Vm, s': Vm, f: int)
    requires Chained(links, Chain(s)) && f in s.res && |s'.own| == |s.own| && s'.res == Without(s.res, f)
    ensures 0 <= f < |links| && 0 <= links[f].prev < |links| && 0 <= links[f].next < |links|
    ensures Chained(Unlinked(links, f), Chain(s'))
  {
    hide Unlinked, Joined;
    var c, j := Chain(s), IndexOf(s.res, f);
    assert c[j + 1] == f;
    UnlinkedChained(links, c, j + 1);
    InnerDistinct(TailOf(s), s.res, HeadOf(s));
    WithoutAt(s.res, j);
    assert c[..j + 1] + c[j + 2..] == Chain(s');
  }

  /** The frame table and the table when entry k of table b is no longer present. */
  function EntryGone(mem: seq<Content>, b: int, k: int): seq<Content>
    requires 0 <= b < |mem| && mem[b].Table? && 0 <= k < |mem[b].ptes|
  {
    mem[b := Table(mem[b].ptes[k := mem[b].ptes[k].(pres := false)])]
  }

  function RefDown(ivt: seq<Ivent>, b: int): seq<Ivent>
    requires 0 <= b < |ivt|
  {
    ivt[b := ivt[b].(ref_count := ivt[b].ref_count - 1)]
  }

  lemma PagedOutShows(ivt: seq<Ivent>, links: seq<Link>, mem: seq<Content>, s: Vm, f: int, b: int, k: int)
    requires Shows(ivt, links, mem, s, -1, -1) && VmInv(s, -1) && 0 <= f < |s.own| && s.own[f].PageOf?
    requires (s.own[f].pid, s.own[f].vpn / 1024) in s.tab && b == s.tab[(s.own[f].pid, s.own[f].vpn / 1024)] && k == s.own[f].vpn % 1024
    ensures Mapped(s, s.own[f].pid, s.own[f].vpn) && 0 <= links[f].prev < |links| && 0 <= links[f].next < |links|
    ensures 0 <= b < |mem| && b < |ivt| && mem[b].Table? && 0 <= k < |mem[b].ptes|
    ensures Shows(RefDown(ivt, b), Unlinked(links, f), EntryGone(mem, b, k), PagedOut(s, f), -1, f)
  {
    assert ShowsSpelledOut(s);
    Lookup(ivt, links, mem, s, f);
    PageSlot(s, f, -1);
    var pid, idx, s' := s.own[f].pid, s.own[f].vpn / 1024, PagedOut(s, f);
    assert f in s.res by {
      assert VmInvSpelledOut(s);
    }
    UnlinkChain(links, s, s', f);
    var ivt', mem' := RefDown(ivt, b), EntryGone(mem, b, k);
    forall g | 0 <= g < |s'.own| && g != f
      ensures FrameShows(ivt'[g], mem'[g], s', g, -1)
    {
      assert s.own[g] == s'.own[g];
      if g == b {
        assert FrameShows(ivt[b], mem[b], s, b, -1);
        PresentUpdate(mem[b].ptes, k, mem'[b].ptes[k]);
        EntryGoneShows(mem[b].ptes, s, s', pid, idx, k);
      } else {
        FrameOwned(s, g, -1);
        PageGoneFrame(ivt[g], mem[g], s, s', g, f);
      }
    }
    assert ShowsAll(ivt', Unlinked(links, f), mem', s', -1, f);
  }

  lemma EntryGoneShows(ptes: seq<Pte>, s: Vm, s': Vm, pid: int, idx: int, k: int)
    requires TabShows(ptes, s, pid, idx) && 0 <= k < 1024 && s'.at == s.at - {(pid, Vpn(idx, k))} && s'.bits == s.bits
    ensures TabShows(ptes[k := ptes[k].(pres := false)], s', pid, idx)
  {
    var ptes' := ptes[k := ptes[k].(pres := false)];
    forall i | 0 <= i < 1024
      ensures PteShows(ptes'[i], s', pid, Vpn(idx, i))
    {
      assert PteShows(ptes[i], s, pid, Vpn(idx, i));
    }
  }

  /** A frame that is neither the page nor its table. */
  lemma PageGoneFrame(iv: Ivent, m: Content, s: Vm, s': Vm, g: int, f: int)
    requires VmInv(s, -1) && 0 <= f < |s.own| && s.own[f].PageOf? && 0 <= g < |s.own| && g != f
    requires FrameShows(iv, m, s, g, -1) && s.own[g] != TabOf(s.own[f].pid, s.own[f].vpn / 1024)
    requires |s'.own| == |s.own| && s'.own[g] == s.own[g] && s'.data == s.data && s'.tab == s.tab && s'.bits == s.bits
    requires s'.at == s.at - {(s.own[f].pid, s.own[f].vpn)}
    ensures FrameShows(iv, m, s', g, -1)
  {
    match s.own[g]
    case TabOf(pid, idx) =>
      if pid != -1 {
        forall k | 0 <= k < 1024
          ensures PteShows(m.ptes[k], s', pid, Vpn(idx, k))
        {
          assert PteShows(m.ptes[k], s, pid, Vpn(idx, k));
        }
      }
    case DirOf(pid) =>
      if pid != -1 {
        forall idx | 4 <= idx < 576
          ensures PdeShows(m.pdes[idx], s', pid, idx)
        {
          assert PdeShows(m.pdes[idx], s, pid, idx);
        }
      }
    case _ =>
  }

  lemma EntryOf(ptes: seq<Pte>, s: Vm, pid: int, idx: int, vpn: int)
    requires TabShows(ptes, s, pid, idx) && (pid, vpn) in s.at && vpn / 1024 == idx
    ensures ptes[vpn % 1024].pres
  {
    assert vpn == Vpn(idx, vpn % 1024);
    assert PteShows(ptes[vpn % 1024], s, pid, Vpn(idx, vpn % 1024));
  }

  /** The frame of a table is where the map of tables says, and so on. */
  lemma FrameOwned(s: Vm, g: int, dying: int)
    requires VmInv(s, dying) && 0 <= g < |s.own|
    ensures Owned(s, g)
  {
    assert VmInvSpelledOut(s);
  }

  /** A table's reference count is zero exactly if none of its pages is resident. */
  lemma CountEmpty(ptes: seq<Pte>, s: Vm, pid: int, idx: int)
    requires TabShows(ptes, s, pid, idx) && forall vpn {:trigger (pid, vpn) in s.at} :: (pid, vpn) in s.at ==> 0 <= vpn
    ensures Present(ptes) == 0 <==> TableEmpty(s, pid, idx)
  {
    PresentNone(ptes);
    if Present(ptes) == 0 {
      forall vpn | (pid, vpn) in s.at
        ensures vpn / 1024 != idx
      {
        if vpn / 1024 == idx {
          EntryOf(ptes, s, pid, idx, vpn);
        }
      }
    } else {
      var k :| 0 <= k < |ptes| && ptes[k].pres;
      assert PteShows(ptes[k], s, pid, Vpn(idx, k));
      assert Vpn(idx, k) / 1024 == idx;
    }
  }

  /** Table b, found in directory d at idx, is freed. */
  lemma TableDroppedShows(ivt: seq<Ivent>, links: seq<Link>, mem: seq<Content>, s: Vm, f: int, pid: int, idx: int, d: int, b: int)
    requires Shows(ivt, links, mem, s, -1, f) && VmInv(s, -1) && 0 <= f < |s.own| && s.own[f] == NoOne && pid > 0 && 4 <= idx < 576
    requires pid in s.dir && d == s.dir[pid] && (pid, idx) in s.tab && b == s.tab[(pid, idx)]
    ensures 0 <= b < |mem| && 0 <= d < |mem| && d < |ivt| && b < |ivt| && d != b && mem[d].Dir? && idx < |mem[d].pdes|
    ensures ivt[b].ref_count == 0 <==> TableEmpty(s, pid, idx)
    ensures TableEmpty(s, pid, idx) ==>
      Shows(ivt[b := ivt[b].(valid := NULL_PAGE)], links, mem[d := Dir(mem[d].pdes[idx := mem[d].pdes[idx].(pres := false)])], TableDropped(s, pid, idx), -1, f)
  {
    assert ShowsSpelledOut(s);
    assert VmInvSpelledOut(s);
    assert InFrames(s, d, DirOf(pid)) && InFrames(s, b, TabOf(pid, idx));
    assert FrameShows(ivt[d], mem[d], s, d, -1) && FrameShows(ivt[b], mem[b], s, b, -1);
    CountEmpty(mem[b].ptes, s, pid, idx);
    if TableEmpty(s, pid, idx) {
      TableGoneShows(ivt, links, mem, s, f, pid, idx, d, b);
    }
  }

  lemma TableGoneShows(ivt: seq<Ivent>, links: seq<Link>, mem: seq<Content>, s: Vm, f: int, pid: int, idx: int, d: int, b: int)
    requires Shows(ivt, links, mem, s, -1, f) && VmInv(s, -1) && 0 <= f < |s.own| && s.own[f] == NoOne && pid > 0 && 4 <= idx < 576
    requires pid in s.dir && d == s.dir[pid] && (pid, idx) in s.tab && b == s.tab[(pid, idx)] && TableEmpty(s, pid, idx)
    requires InFrames(s, d, DirOf(pid)) && InFrames(s, b, TabOf(pid, idx)) && mem[d].Dir? && |mem[d].pdes| == 1024
    requires ivt[b].ref_count == 0 && ivt[b].frame_number == b
    ensures Shows(ivt[b := ivt[b].(valid := NULL_PAGE)], links, mem[d := Dir(mem[d].pdes[idx := mem[d].pdes[idx].(pres := false)])], TableDropped(s, pid, idx), -1, f)
  {
    hide VmInv, FrameShows, Joined, Chained, Distinct;
    assert ShowsSpelledOut(s);
    var s' := TableDropped(s, pid, idx);
    var ivt', mem' := ivt[b := ivt[b].(valid := NULL_PAGE)], mem[d := Dir(mem[d].pdes[idx := mem[d].pdes[idx].(pres := false)])];
    assert Chain(s') == Chain(s);
    forall g | 0 <= g < |s'.own| && g != f
      ensures FrameShows(ivt'[g], mem'[g], s', g, -1)
    {
      if g != b {
        FrameOwned(s, g, -1);
        assert s.own[g] == s'.own[g];
        assert FrameShows(ivt[g], mem[g], s, g, -1);
        TableGoneFrame(ivt[g], mem[g], mem'[g], s, s', g, pid, idx);
      } else {
        FreeShows(ivt'[b], mem'[b], s', b);
      }
    }
    assert ShowsAll(ivt', links, mem', s', -1, f);
  }

  /** An unused frame. */
  lemma FreeShows(iv: Ivent, m: Content, s: Vm, g: int)
    requires 0 <= g < |s.own| == |s.data| && s.own[g] == NoOne && iv.valid == NULL_PAGE && iv.ref_count == 0 && iv.frame_number == g
    ensures FrameShows(iv, m, s, g, -1)
  {
  }

  lemma TableGoneFrame(iv: Ivent, m: Content, m': Content, s: Vm, s': Vm, g: int, pid: int, idx: int)
    requires pid > 0 && 0 <= g < |s.own| == |s.data| == |s'.own| && FrameShows(iv, m, s, g, -1) && s'.own[g] == s.own[g]
    requires s'.data == s.data && s'.at == s.at && s'.bits == s.bits && s'.tab == s.tab - {(pid, idx)} && 4 <= idx < 576
    requires if s.own[g] == DirOf(pid) then m' == Dir(m.pdes[idx := m.pdes[idx].(pres := false)]) else m' == m
    requires s.own[g] != TabOf(pid, idx)
    ensures FrameShows(iv, m', s', g, -1)
  {
    match s.own[g]
    case TabOf(p, i) =>
      if p != -1 {
        forall k | 0 <= k < 1024
          ensures PteShows(m.ptes[k], s', p, Vpn(i, k))
        {
          assert PteShows(m.ptes[k], s, p, Vpn(i, k));
        }
      }
    case DirOf(p) =>
      if p != -1 {
        forall i | 4 <= i < 576
          ensures PdeShows(m'.pdes[i], s', p, i)
        {
          assert PdeShows(m.pdes[i], s, p, i);
        }
      }
    case _ =>
  }

  // ---- the accessed and dirty bits

  function EntryBits(mem: seq<Content>, b: int, k: int, bits: Bits): seq<Content>
    requires 0 <= b < |mem| && mem[b].Table? && 0 <= k < |mem[b].ptes|
  {
    mem[b := Table(mem[b].ptes[k := mem[b].ptes[k].(acc := bits.acc, dirty := bits.dirty)])]
  }

  /** New bits, and perhaps new contents, for the page in frame f. */
  lemma BitsShow(ivt: seq<Ivent>, links: seq<Link>, mem: seq<Content>, s: Vm, f: int, b: int, k: int, bits: Bits, pg: Page)
    requires Shows(ivt, links, mem, s, -1, -1) && VmInv(s, -1) && 0 <= f < |s.own| && s.own[f].PageOf?
    requires (s.own[f].pid, s.own[f].vpn / 1024) in s.tab && b == s.tab[(s.own[f].pid, s.own[f].vpn / 1024)] && k == s.own[f].vpn % 1024
    ensures 0 <= b < |mem| && b != f && mem[b].Table? && 0 <= k < |mem[b].ptes|
    ensures |s.bits| == |s.data| == |s.own|
    ensures Shows(ivt, links, EntryBits(mem, b, k, bits)[f := Data(pg)], s.(bits := s.bits[f := bits], data := s.data[f := pg]), -1, -1)
  {
    assert ShowsSpelledOut(s);
    Lookup(ivt, links, mem, s, f);
    var pid, idx, s' := s.own[f].pid, s.own[f].vpn / 1024, s.(bits := s.bits[f := bits], data := s.data[f := pg]);
    var mem' := EntryBits(mem, b, k, bits)[f := Data(pg)];
    assert Chain(s') == Chain(s);
    forall g | 0 <= g < |s'.own|
      ensures FrameShows(ivt[g], mem'[g], s', g, -1)
    {
      assert s.own[g] == s'.own[g];
      assert FrameShows(ivt[g], mem[g], s, g, -1);
      if g == b {
        PresentUpdate(mem[b].ptes, k, mem'[b].ptes[k]);
      }
      FrameOwned(s, g, -1);
      BitsFrame(ivt[g], mem[g], mem'[g], s, s', g, f, k);
    }
    assert ShowsAll(ivt, links, mem', s', -1, -1);
  }

  lemma BitsFrame(iv: Ivent, m: Content, m': Content, s: Vm, s': Vm, g: int, f: int, k: int)
    requires VmInv(s, -1) && 0 <= f < |s.own| && s.own[f].PageOf? && s.own[f].pid > 0 && 0 <= g < |s.own| && k == s.own[f].vpn % 1024
    requires |s'.bits| == |s'.data| == |s.own| && FrameShows(iv, m, s, g, -1) && s' == s.(bits := s.bits[f := s'.bits[f]], data := s.data[f := s'.data[f]])
    requires if g == f then m' == Data(s'.data[f])
             else if s.own[g] == TabOf(s.own[f].pid, s.own[f].vpn / 1024) then
               m' == Table(m.ptes[k := m.ptes[k].(acc := s'.bits[f].acc, dirty := s'.bits[f].dirty)]) && Present(m'.ptes) == Present(m.ptes)
             else m' == m
    ensures FrameShows(iv, m', s', g, -1)
  {
    assert VmInvSpelledOut(s);
    assert Owned(s, f);
    match s.own[g]
    case TabOf(p, i) =>
      if p != -1 {
        forall j | 0 <= j < 1024
          ensures PteShows(m'.ptes[j], s', p, Vpn(i, j))
        {
          assert PteShows(m.ptes[j], s, p, Vpn(i, j));
          if (p, Vpn(i, j)) in s.at {
            assert InFrames(s, s.at[(p, Vpn(i, j))], PageOf(p, Vpn(i, j)));
          }
        }
      }
    case DirOf(p) =>
      if p != -1 {
        forall i | 4 <= i < 576
          ensures PdeShows(m'.pdes[i], s', p, i)
        {
          assert PdeShows(m.pdes[i], s, p, i);
        }
      }
    case _ =>
  }

  // ---- putting a claimed frame to use

  /** A new page table: set_pt_t, and then not present. */
  function EmptyTable(): seq<Pte> { seq(1024, k => Pte(false, false, false, 0)) }

  /** Frame f is a new table of process pid, in its directory d at idx. */
  lemma TabMappedShows(ivt: seq<Ivent>, links: seq<Link>, mem: seq<Content>, s: Vm, f: int, pid: int, idx: int, d: int)
    requires Shows(ivt, links, mem, s, -1, -1) && VmInv(s, -1) && 0 <= f < |s.own| && s.own[f] == Claimed(PAGE_TAB, pid, 0)
    requires pid > 0 && pid in s.dir && d == s.dir[pid] && (pid, idx) !in s.tab && 4 <= idx < 576
    ensures 0 <= d < |mem| && d != f && mem[d].Dir? && |mem[d].pdes| == 1024 && !mem[d].pdes[idx].pres
    ensures Shows(ivt, links, mem[d := Dir(mem[d].pdes[idx := Pde(true, f + 1024)])][f := Table(EmptyTable())], TabMapped(s, f, pid, idx), -1, -1)
  {
    assert ShowsSpelledOut(s);
    assert VmInvSpelledOut(s);
    assert InFrames(s, d, DirOf(pid));
    assert FrameShows(ivt[d], mem[d], s, d, -1) && FrameShows(ivt[f], mem[f], s, f, -1);
    assert PdeShows(mem[d].pdes[idx], s, pid, idx);
    var s', mem' := TabMapped(s, f, pid, idx), mem[d := Dir(mem[d].pdes[idx := Pde(true, f + 1024)])][f := Table(EmptyTable())];
    assert Chain(s') == Chain(s);
    VmFaults.EmptyTable(s, pid, idx);
    PresentNone(EmptyTable());
    forall g | 0 <= g < |s'.own|
      ensures FrameShows(ivt[g], mem'[g], s', g, -1)
    {
      if g == f {
        NewTable(s', pid, idx);
      } else {
        FrameOwned(s, g, -1);
        assert s.own[g] == s'.own[g];
        assert FrameShows(ivt[g], mem[g], s, g, -1);
        TableNewFrame(ivt[g], mem[g], mem'[g], s, s', g, pid, idx, f);
      }
    }
    assert ShowsAll(ivt, links, mem', s', -1, -1);
  }

  lemma NewTable(s: Vm, pid: int, idx: int)
    requires TableEmpty(s, pid, idx)
    ensures TabShows(EmptyTable(), s, pid, idx)
  {
    forall k | 0 <= k < 1024
      ensures PteShows(EmptyTable()[k], s, pid, Vpn(idx, k))
    {
      assert Vpn(idx, k) / 1024 == idx;
    }
  }

  lemma TableNewFrame(iv: Ivent, m: Content, m': Content, s: Vm, s': Vm, g: int, pid: int, idx: int, f: int)
    requires pid > 0 && 0 <= g < |s.own| == |s.data| == |s'.own| && FrameShows(iv, m, s, g, -1) && s'.own[g] == s.own[g]
    requires s'.data == s.data && s'.at == s.at && s'.bits == s.bits && s'.tab == s.tab[(pid, idx) := f] && 4 <= idx < 576
    requires if s.own[g] == DirOf(pid) then m' == Dir(m.pdes[idx := Pde(true, f + 1024)]) else m' == m
    requires s.own[g] != TabOf(pid, idx)
    ensures FrameShows(iv, m', s', g, -1)
  {
    match s.own[g]
    case TabOf(p, i) =>
      if p != -1 {
        forall k | 0 <= k < 1024
          ensures PteShows(m.ptes[k], s', p, Vpn(i, k))
        {
          assert PteShows(m.ptes[k], s, p, Vpn(i, k));
        }
      }
    case DirOf(p) =>
      if p != -1 {
        forall i | 4 <= i < 576
          ensures PdeShows(m'.pdes[i], s', p, i)
        {
          assert PdeShows(m.pdes[i], s, p, i);
        }
      }
    case _ =>
  }

  function RefUp(ivt: seq<Ivent>, b: int): seq<Ivent>
    requires 0 <= b < |ivt|
  {
    ivt[b := ivt[b].(ref_count := ivt[b].ref_count + 1)]
  }

  /** Frame f holds page vpn of process pid, read from its store, and table b has it at k. */
  lemma PageMappedShows(ivt: seq<Ivent>, links: seq<Link>, mem: seq<Content>, s: Vm, f: int, pid: int, vpn: int, b: int)
    requires Shows(ivt, links, mem, s, -1, -1) && VmInv(s, -1) && 0 <= f < |s.own| && s.own[f] == Claimed(PAGE, pid, vpn)
    requires pid > 0 && Mapped(s, pid, vpn) && (pid, vpn) !in s.at && (pid, vpn / 1024) in s.tab && b == s.tab[(pid, vpn / 1024)]
    requires InStore(Store(s, pid, vpn), Offset(s, pid, vpn))
    ensures 0 <= b < |mem| && b != f && b < |ivt| && mem[b].Table? && |mem[b].ptes| == 1024
    ensures Shows(RefUp(ivt, b), links, mem[f := Data(Saved(s, pid, vpn))][b := Table(mem[b].ptes[vpn % 1024 := Pte(true, false, false, f + 1024)])],
                  PageMapped(s, f, pid, vpn), -1, -1)
  {
    assert ShowsSpelledOut(s);
    var idx, k, s' := vpn / 1024, vpn % 1024, PageMapped(s, f, pid, vpn);
    assert vpn == Vpn(idx, k);
    assert InFrames(s, b, TabOf(pid, idx)) by {
      assert VmInvSpelledOut(s);
    }
    assert FrameShows(ivt[b], mem[b], s, b, -1) && FrameShows(ivt[f], mem[f], s, f, -1);
    assert PteShows(mem[b].ptes[k], s, pid, Vpn(idx, k));
    PresentUpdate(mem[b].ptes, k, Pte(true, false, false, f + 1024));
    var mem' := mem[f := Data(Saved(s, pid, vpn))][b := Table(mem[b].ptes[k := Pte(true, false, false, f + 1024)])];
    assert Chain(s') == Chain(s);
    forall g | 0 <= g < |s'.own|
      ensures FrameShows(RefUp(ivt, b)[g], mem'[g], s', g, -1)
    {
      if g != f {
        FrameOwned(s, g, -1);
        assert s.own[g] == s'.own[g];
        assert FrameShows(ivt[g], mem[g], s, g, -1);
        PageNewFrame(ivt[g], RefUp(ivt, b)[g], mem[g], mem'[g], s, s', g, pid, vpn, f);
      }
    }
    assert ShowsAll(RefUp(ivt, b), links, mem', s', -1, -1);
  }

  lemma PageNewFrame(iv: Ivent, iv': Ivent, m: Content, m': Content, s: Vm, s': Vm, g: int, pid: int, vpn: int, f: int)
    requires VmInv(s, -1) && pid > 0 && 0 <= g < |s.own| == |s.data| == |s'.own| == |s'.data| == |s.bits| && FrameShows(iv, m, s, g, -1) && s'.own[g] == s.own[g]
    requires 0 <= f < |s.own| && g != f && s.own[f].Claimed? && |s'.bits| == |s.bits| && s'.data == s.data[f := s'.data[f]] && s'.bits == s.bits[f := Bits(false, false)]
    requires s'.at == s.at[(pid, vpn) := f] && s'.tab == s.tab
    requires if s.own[g] == TabOf(pid, vpn / 1024) then
               m' == Table(m.ptes[vpn % 1024 := Pte(true, false, false, f + 1024)]) && iv' == iv.(ref_count := Present(m'.ptes))
             else m' == m && iv' == iv
    ensures FrameShows(iv', m', s', g, -1)
  {
    match s.own[g]
    case TabOf(p, i) =>
      if p != -1 {
        forall k | 0 <= k < 1024
          ensures PteShows(m'.ptes[k], s', p, Vpn(i, k))
        {
          assert PteShows(m.ptes[k], s, p, Vpn(i, k));
          assert Vpn(i, k) / 1024 == i && Vpn(i, k) % 1024 == k;
          AtFrame(s, p, Vpn(i, k), f);
        }
      }
    case DirOf(p) =>
      if p != -1 {
        forall i | 4 <= i < 576
          ensures PdeShows(m'.pdes[i], s', p, i)
        {
          assert PdeShows(m.pdes[i], s, p, i);
        }
      }
    case _ =>
  }

  /** A resident page is not in a frame that is being set up. */
  lemma AtFrame(s: Vm, pid: int, vpn: int, f: int)
    requires VmInv(s, -1) && 0 <= f < |s.own| && s.own[f].Claimed?
    ensures (pid, vpn) in s.at ==> s.at[(pid, vpn)] != f
  {
    assert VmInvSpelledOut(s);
    if (pid, vpn) in s.at {
      assert InFrames(s, s.at[(pid, vpn)], PageOf(pid, vpn));
    }
  }

  /** A new directory has the global tables and the device table, and nothing of the heap. */
  function NewDir(): seq<Pde> {
    seq(1024, idx => if 0 <= idx < 4 then Pde(true, idx + 1 + 1024) else if idx == 576 then Pde(true, 5 + 1024) else Pde(false, 0))
  }

  lemma DirMappedShows(ivt: seq<Ivent>, links: seq<Link>, mem: seq<Content>, s: Vm, f: int, pid: int, pdes: seq<Pde>)
    requires Shows(ivt, links, mem, s, -1, -1) && VmInv(s, -1) && 0 <= f < |s.own| && s.own[f] == Claimed(PAGE_DIR, pid, 0) && pid !in s.dir
    requires pid > 0 && |pdes| == 1024 && forall idx :: 4 <= idx < 576 ==> !pdes[idx].pres
    ensures Shows(ivt, links, mem[f := Dir(pdes)], DirMapped(s, f, pid), -1, -1)
  {
    assert ShowsSpelledOut(s);
    assert VmInvSpelledOut(s);
    var s', mem' := DirMapped(s, f, pid), mem[f := Dir(pdes)];
    assert Chain(s') == Chain(s);
    assert FrameShows(ivt[f], mem[f], s, f, -1);
    forall g | 0 <= g < |s'.own|
      ensures FrameShows(ivt[g], mem'[g], s', g, -1)
    {
      if g != f {
        assert s.own[g] == s'.own[g];
        FrameSame(ivt[g], mem[g], s, s', g, -1);
      } else {
        forall idx | 4 <= idx < 576
          ensures PdeShows(pdes[idx], s', pid, idx)
        {
          assert (pid, idx) !in s.tab;
        }
      }
    }
    assert ShowsAll(ivt, links, mem', s', -1, -1);
  }

  // ---- kill

  /** kill's treatment of one frame-table entry. */
  function Reset(i: int): Ivent { Ivent(NULL_PAGE, i, 0, 0, 0) }

  /** kill is about to take process pid apart. */
  lemma DyingShows(ivt: seq<Ivent>, links: seq<Link>, mem: seq<Content>, s: Vm, pid: int)
    requires Shows(ivt, links, mem, s, -1, -1) && VmInv(s, -1)
    ensures Shows(ivt, links, mem, s, pid, -1)
  {
    assert ShowsSpelledOut(s);
    forall g | 0 <= g < |s.own|
      ensures FrameShows(ivt[g], mem[g], s, g, pid)
    {
      FrameOwned(s, g, -1);
      assert FrameShows(ivt[g], mem[g], s, g, -1);
    }
    assert ShowsAll(ivt, links, mem, s, pid, -1);
  }

  /** Once nothing belongs to it, the process no longer counts as dying. */
  lemma DeadShows(ivt: seq<Ivent>, links: seq<Link>, mem: seq<Content>, s: Vm, s': Vm, pid: int)
    requires Shows(ivt, links, mem, s, pid, -1) && forall f :: 0 <= f < |s.own| ==> OwnerPid(s.own[f]) != pid
    requires s' == s.(bsmap := s'.bsmap, bstab := s'.bstab) && pid > 0
    ensures Shows(ivt, links, mem, s', -1, -1)
  {
    assert ShowsSpelledOut(s);
    assert Chain(s') == Chain(s);
    forall g | 0 <= g < |s'.own|
      ensures FrameShows(ivt[g], mem[g], s', g, -1)
    {
      assert OwnerPid(s.own[g]) != pid;
      assert FrameShows(ivt[g], mem[g], s, g, pid);
      FrameSame(ivt[g], mem[g], s, s', g, pid);
    }
    assert ShowsAll(ivt, links, mem, s', -1, -1);
  }

  /** A frame of another process, when something of process pid goes. */
  lemma OtherFrame(iv: Ivent, m: Content, s: Vm, s': Vm, g: int, pid: int)
    requires 0 <= g < |s.own| == |s.data| == |s'.own| == |s'.data| && FrameShows(iv, m, s, g, pid)
    requires s'.own[g] == s.own[g] && s'.data == s.data && s'.bits == s.bits
    requires forall q, v {:trigger (q, v) in s.tab} {:trigger (q, v) in s'.tab} :: q != pid ==> ((q, v) in s'.tab <==> (q, v) in s.tab) && ((q, v) in s.tab ==> s'.tab[(q, v)] == s.tab[(q, v)])
    requires forall q, v {:trigger (q, v) in s.at} {:trigger (q, v) in s'.at} :: q != pid ==> ((q, v) in s'.at <==> (q, v) in s.at) && ((q, v) in s.at ==> s'.at[(q, v)] == s.at[(q, v)])
    ensures FrameShows(iv, m, s', g, pid)
  {
    match s.own[g]
    case TabOf(p, i) =>
      if p != pid {
        forall k | 0 <= k < 1024
          ensures PteShows(m.ptes[k], s', p, Vpn(i, k))
        {
          assert PteShows(m.ptes[k], s, p, Vpn(i, k));
        }
      }
    case DirOf(p) =>
      if p != pid {
        forall i | 4 <= i < 576
          ensures PdeShows(m.pdes[i], s', p, i)
        {
          assert PdeShows(m.pdes[i], s, p, i);
        }
      }
    case _ =>
  }

  /** One frame of the dying process is freed. */
  lemma KillShows(ivt: seq<Ivent>, links: seq<Link>, mem: seq<Content>, s: Vm, pid: int, f: int)
    requires Shows(ivt, links, mem, s, pid, -1) && VmInv(s, pid) && Quiet(s) && 0 <= f < |s.own| && OwnerPid(s.own[f]) == pid && pid > 0
    ensures s.own[f].PageOf? ==> 0 <= links[f].prev < |links| && 0 <= links[f].next < |links| && f in s.res
    ensures Shows(ivt[f := Reset(f)], if s.own[f].PageOf? then Unlinked(links, f) else links, mem, KillFrame(s, pid, f), pid, -1)
  {
    assert ShowsSpelledOut(s);
    var s' := KillFrame(s, pid, f);
    if s.own[f].PageOf? {
      PageSlot(s, f, pid);
      assert f in s.res by {
        assert VmInvSpelledOut(s);
      }
      UnlinkChain(links, s, s', f);
    } else {
      assert Chain(s') == Chain(s);
    }
    forall g | 0 <= g < |s'.own|
      ensures FrameShows(ivt[f := Reset(f)][g], mem[g], s', g, pid)
    {
      if g != f {
        assert s.own[g] == s'.own[g];
        assert FrameShows(ivt[g], mem[g], s, g, pid);
        OtherFrame(ivt[g], mem[g], s, s', g, pid);
      }
    }
    assert ShowsAll(ivt[f := Reset(f)], if s.own[f].PageOf? then Unlinked(links, f) else links, mem, s', pid, -1);
  }
}
