/** The beginning and the end of a process as far as its memory goes: mapping a heap over
    backing stores, and giving back frames and stores. */
module VmProcesses {
  import opened DistinctLists
  import opened LfsDisk
  import opened BackingStore
  import opened VmSpec
  import opened VmSteps
  import opened VmFaults

  // ---- kill

  function OwnerPid(o: Own): int {
    match o
    case NoOne => 0
    case Static(_) => 0
    case Claimed(_, pid, _) => pid
    case DirOf(pid) => pid
    case TabOf(pid, _) => pid
    case PageOf(pid, _) => pid
  }

  /** kill, for one frame of the process: a page is saved, anything is freed. */
  ghost function KillFrame(s: Vm, pid: int, f: int): Vm
    requires VmInv(s, pid) && Quiet(s) && 0 <= f < |s.own|
  {
    if OwnerPid(s.own[f]) != pid || pid <= 0 then s
    else
      match s.own[f]
      case PageOf(_, _) => PageSlot(s, f, pid); PagedOut(s, f)
      case TabOf(_, idx) => s.(own := s.own[f := NoOne], tab := s.tab - {(pid, idx)})
      case DirOf(_) => s.(own := s.own[f := NoOne], dir := s.dir - {pid})
      case _ => s
  }

  lemma FreeTable(s: Vm, pid: int, f: int)
    requires VmInv(s, pid) && Quiet(s) && 0 <= f < |s.own| && s.own[f].TabOf? && s.own[f].pid == pid && pid > 0
    ensures VmInv(KillFrame(s, pid, f), pid)
  {
    hide FindStore, StoresOk;
    assert VmInvSpelledOut(s);
    var s' := KillFrame(s, pid, f);
    forall g | 0 <= g < |s'.own|
      ensures Owned(s', g)
    {
      assert Owned(s, g) && Owned(s, f);
    }
    assert Frames(s');
    assert VmCore(s', pid);
  }

  lemma FreeDir(s: Vm, pid: int, f: int)
    requires VmInv(s, pid) && Quiet(s) && 0 <= f < |s.own| && s.own[f].DirOf? && s.own[f].pid == pid && pid > 0
    ensures VmInv(KillFrame(s, pid, f), pid)
  {
    hide FindStore, StoresOk;
    assert VmInvSpelledOut(s);
    var s' := KillFrame(s, pid, f);
    forall g | 0 <= g < |s'.own|
      ensures Owned(s', g)
    {
      assert Owned(s, g) && Owned(s, f);
    }
    assert Frames(s');
    assert VmCore(s', pid);
  }

  lemma ResidentDistinct(s: Vm, dying: int)
    requires VmInv(s, dying)
    ensures Distinct(s.res)
  {
    assert VmInvSpelledOut(s);
  }

  lemma KillFrameKeeps(s: Vm, pid: int, f: int)
    requires VmInv(s, pid) && Quiet(s) && 0 <= f < |s.own| && pid > 0
    ensures var s' := KillFrame(s, pid, f);
      && VmInv(s', pid) && Quiet(s') && SameMemory(s, s') && |s'.own| == |s.own| && s'.hand == s.hand
      && s'.own[f] == (if OwnerPid(s.own[f]) == pid then NoOne else s.own[f]) && (forall g :: 0 <= g < |s.own| && g != f ==> s'.own[g] == s.own[g])
      && (forall g :: g in s'.res ==> g in s.res) && (forall g :: g in s.res && g != f ==> g in s'.res)
  {
    hide VmInv, Without, Mapped, StoresOk;
    if OwnerPid(s.own[f]) == pid {
      match s.own[f]
      case PageOf(_, _) =>
        PagedOutKeeps(s, f, pid);
        PagedOutMemory(s, f, pid);
        ResidentDistinct(s, pid);
        WithoutIs(s.res, f);
      case TabOf(_, _) => FreeTable(s, pid, f);
      case DirOf(_) => FreeDir(s, pid, f);
    }
  }

  /** The frame loop of kill, over the first n frames. */
  ghost function KillFrames(s: Vm, pid: int, n: nat): (r: Vm)
    requires VmInv(s, pid) && Quiet(s) && pid > 0 && n <= |s.own|
    ensures VmInv(r, pid) && Quiet(r) && |r.own| == |s.own|
  {
    if n == 0 then s
    else
      var s1 := KillFrames(s, pid, n - 1);
      KillFrameKeeps(s1, pid, n - 1);
      KillFrame(s1, pid, n - 1)
  }

  lemma {:induction false} KillFramesKeeps(s: Vm, pid: int, n: nat)
    requires VmInv(s, pid) && Quiet(s) && pid > 0 && n <= |s.own|
    ensures var s' := KillFrames(s, pid, n);
      && SameMemory(s, s') && s'.hand == s.hand
      && (forall g :: 0 <= g < |s.own| ==> s'.own[g] == if g < n && OwnerPid(s.own[g]) == pid then NoOne else s.own[g])
      && (forall g :: g in s'.res ==> g in s.res)
      && (forall g :: g in s.res && 0 <= g < |s.own| && OwnerPid(s.own[g]) != pid ==> g in s'.res)
  {
    if n == 0 {
      assert SameMemory(s, s);
    } else {
      KillFramesKeeps(s, pid, n - 1);
      var s1 := KillFrames(s, pid, n - 1);
      KillFrameKeeps(s1, pid, n - 1);
      SameMemoryTrans(s, s1, KillFrame(s1, pid, n - 1));
    }
  }

  /** deallocate_bs, with release_bs. A store that someone has open stays allocated. */
  function Released(b: Bs): Bs {
    if !b.isallocated || b.usecount > 0 then b
    else Bs(false, false, 0, if b.isopen then 0 else b.npages)
  }

  function KillStores(s: Vm, pid: int): Vm
    requires |s.bsmap| == |s.bstab|
  {
    s.(bsmap := seq(|s.bsmap|, i requires 0 <= i < |s.bsmap| => if s.bsmap[i].pid == pid then Bsent(false, 0, 0, 0) else s.bsmap[i]),
       bstab := seq(|s.bstab|, i requires 0 <= i < |s.bstab| => if s.bsmap[i].pid == pid then Released(s.bstab[i]) else s.bstab[i]))
  }

  ghost function Kill(s: Vm, pid: int): Vm
    requires VmInv(s, pid) && Quiet(s) && pid > 0
  {
    KillStores(KillFrames(s, pid, |s.own|), pid)
  }

  lemma {:induction false} FindStoreOther(bsmap: seq<Bsent>, bsmap': seq<Bsent>, pid: int, q: int, vpn: int, i: nat)
    requires |bsmap| == |bsmap'| && i <= |bsmap| && q != pid && q > 0
    requires forall j :: 0 <= j < |bsmap| ==> bsmap'[j] == bsmap[j] || (bsmap[j].pid in {0, pid} && bsmap'[j].pid in {0, pid})
    ensures FindStore(bsmap', q, vpn, i) == FindStore(bsmap, q, vpn, i)
    decreases |bsmap| - i
  {
    if i < |bsmap| {
      FindStoreOther(bsmap, bsmap', pid, q, vpn, i + 1);
    }
  }

  /** After kill no frame and no store belongs to the process; every other process keeps its memory;
      and the clock hand is still good exactly if it was not on a page of the process. */
  lemma KillFreesAll(s: Vm, pid: int)
    requires VmInv(s, -1) && Quiet(s) && pid > 0
    ensures VmInv(s, pid)
    ensures var s' := Kill(s, pid);
      && VmInv(s', -1) && Quiet(s') && |s'.own| == |s.own| && s'.hand == s.hand
      && (forall f :: 0 <= f < |s'.own| ==> OwnerPid(s'.own[f]) != pid)
      && (forall i :: 0 <= i < |s'.bsmap| ==> s'.bsmap[i].pid != pid)
      && (forall q, vpn :: q > 0 && q != pid && Mapped(s, q, vpn) ==> Mapped(s', q, vpn) && Mem(s', q, vpn) == Mem(s, q, vpn))
      && (HandOk(s) ==> (HandOk(s') <==> !(0 <= s.hand < |s.own| && OwnerPid(s.own[s.hand]) == pid)))
  {
    Dying(s, pid);
    var n := |s.own|;
    var s1, s' := KillFrames(s, pid, n), Kill(s, pid);
    KillFramesKeeps(s, pid, n);
    KilledInv(s1, pid);
    forall q, vpn | q > 0 && q != pid && Mapped(s, q, vpn)
      ensures Mapped(s', q, vpn) && Mem(s', q, vpn) == Mem(s, q, vpn)
    {
      assert Mapped(s1, q, vpn);
      KillStoresOther(s1, pid, q, vpn);
    }
    if HandOk(s) {
      KilledHand(s, pid);
    }
  }

  lemma KillStoresOther(s: Vm, pid: int, q: int, vpn: int)
    requires Sized(s) && Sized(KillStores(s, pid)) && q > 0 && q != pid && Mapped(s, q, vpn)
    ensures Mapped(KillStores(s, pid), q, vpn) && Mem(KillStores(s, pid), q, vpn) == Mem(s, q, vpn)
  {
    FindStoreOther(s.bsmap, KillStores(s, pid).bsmap, pid, q, vpn, 0);
    SameSlot(s, KillStores(s, pid), q, vpn);
  }

  lemma KilledHand(s: Vm, pid: int)
    requires VmInv(s, pid) && Quiet(s) && pid > 0 && HandOk(s)
    ensures HandOk(Kill(s, pid)) <==> !(0 <= s.hand < |s.own| && OwnerPid(s.own[s.hand]) == pid)
  {
    var s' := KillFrames(s, pid, |s.own|);
    KillFramesKeeps(s, pid, |s.own|);
    assert VmInvSpelledOut(s) && VmInvSpelledOut(s');
    if s.hand in s.res {
      assert 0 <= s.hand < |s.own|;
    }
    if s.hand in s'.res {
      assert Kind(s'.own[s.hand]) == PAGE;
    }
  }

  lemma Dying(s: Vm, pid: int)
    requires VmInv(s, -1) && pid > 0
    ensures VmInv(s, pid)
  {
    assert VmInvSpelledOut(s);
    assert forall p, vpn {:trigger (p, vpn) in s.at} :: (p, vpn) in s.at ==> InFrames(s, s.at[(p, vpn)], PageOf(p, vpn)) && Owned(s, s.at[(p, vpn)]);
    assert forall p, idx {:trigger (p, idx) in s.tab} :: (p, idx) in s.tab ==> InFrames(s, s.tab[(p, idx)], TabOf(p, idx)) && Owned(s, s.tab[(p, idx)]);
    assert VmCore(s, pid);
  }

  lemma KilledInv(s: Vm, pid: int)
    requires VmInv(s, pid) && pid > 0 && forall f :: 0 <= f < |s.own| ==> OwnerPid(s.own[f]) != pid
    ensures VmInv(KillStores(s, pid), -1)
  {
    assert VmInvSpelledOut(s);
    var s' := KillStores(s, pid);
    forall i | 0 <= i < MAX_BS
      ensures StoreOk(s'.bsmap[i], s'.bstab[i])
    {
      assert StoreOk(s.bsmap[i], s.bstab[i]);
    }
    forall g | 0 <= g < |s'.own|
      ensures Owned(s', g)
    {
      assert Owned(s, g);
    }
    assert Frames(s');
    forall p, v | (p, v) in s'.at
      ensures Mapped(s', p, v) && 0 <= v && (p, v / 1024) in s'.tab
    {
      assert (p, v) in s.at;
      assert InFrames(s, s.at[(p, v)], PageOf(p, v)) && Owned(s, s.at[(p, v)]);
      FindStoreOther(s.bsmap, s'.bsmap, pid, p, v, 0);
    }
    forall p, idx | (p, idx) in s'.tab
      ensures p in s'.dir && 4 <= idx < 576
    {
      assert (p, idx) in s.tab;
      assert InFrames(s, s.tab[(p, idx)], TabOf(p, idx));
    }
    assert VmCore(s', -1);
  }

  // ---- vcreate

  /** allocate_bs: the first store that is neither allocated nor open; -1 if there is none or the
      size is not one a store can have. */
  function FirstStore(bstab: seq<Bs>, npages: int, i: nat): (r: int)
    requires i <= |bstab|
    ensures r == -1 || (i <= r < |bstab| && !bstab[r].isallocated && !bstab[r].isopen && 0 < npages <= MAX_PAGES_PER_BS)
    decreases |bstab| - i
  {
    if i == |bstab| then -1
    else if !bstab[i].isallocated && !bstab[i].isopen && 0 < npages <= MAX_PAGES_PER_BS then i
    else FirstStore(bstab, npages, i + 1)
  }

  /** bs_mapping, when allocate_bs succeeds; vpn counts from the start of the heap. */
  function MapStore(s: Vm, pid: int, npages: int, vpn: int): Vm
    requires |s.bsmap| == |s.bstab|
  {
    var store := FirstStore(s.bstab, npages, 0);
    if npages == 0 || store == -1 then s
    else s.(bsmap := s.bsmap[store := Bsent(true, pid, npages, vpn + 4096)], bstab := s.bstab[store := Bs(true, true, 0, npages)])
  }

  /** The stores that allocate_bs can still hand out. */
  function FreeStores(bstab: seq<Bs>): nat {
    if bstab == [] then 0
    else FreeStores(bstab[..|bstab| - 1]) + if !bstab[|bstab| - 1].isallocated && !bstab[|bstab| - 1].isopen then 1 else 0
  }

  /** The loop of vcreate: stores of 200 pages while more than that remains, then the rest. */
  function MapHeap(s: Vm, pid: int, remain: nat, t: nat): (r: Vm)
    requires |s.bsmap| == |s.bstab|
    ensures |r.bsmap| == |r.bstab|
    decreases remain
  {
    if remain > MAX_PAGES_PER_BS then MapHeap(MapStore(s, pid, MAX_PAGES_PER_BS, t * 200), pid, remain - MAX_PAGES_PER_BS, t + 1)
    else MapStore(s, pid, remain, t * 200)
  }

  /** It is the first: all before it, or all there are if there is none, are taken. */
  lemma {:induction false} FirstStoreIs(bstab: seq<Bs>, npages: int, i: nat)
    requires i <= |bstab| && 0 < npages <= MAX_PAGES_PER_BS
    ensures var r := FirstStore(bstab, npages, i);
      forall j :: i <= j < (if r == -1 then |bstab| else r) ==> bstab[j].isallocated || bstab[j].isopen
    decreases |bstab| - i
  {
    if i < |bstab| && (bstab[i].isallocated || bstab[i].isopen) {
      FirstStoreIs(bstab, npages, i + 1);
    }
  }

  lemma {:induction false} FreeStoreFound(bstab: seq<Bs>, npages: int, i: nat)
    requires i <= |bstab| && 0 < npages <= MAX_PAGES_PER_BS
    requires exists j :: i <= j < |bstab| && !bstab[j].isallocated && !bstab[j].isopen
    ensures FirstStore(bstab, npages, i) != -1
    decreases |bstab| - i
  {
    if i < |bstab| && (bstab[i].isallocated || bstab[i].isopen) {
      FreeStoreFound(bstab, npages, i + 1);
    }
  }

  lemma {:induction false} SomeFree(bstab: seq<Bs>)
    requires FreeStores(bstab) > 0
    ensures exists j :: 0 <= j < |bstab| && !bstab[j].isallocated && !bstab[j].isopen
  {
    var n := |bstab| - 1;
    if FreeStores(bstab[..n]) > 0 {
      SomeFree(bstab[..n]);
      var j :| 0 <= j < n && !bstab[..n][j].isallocated && !bstab[..n][j].isopen;
      assert !bstab[j].isallocated && !bstab[j].isopen;
    }
  }

  lemma {:induction false} FreeStoresUpdate(bstab: seq<Bs>, i: int, b: Bs)
    requires 0 <= i < |bstab| && !bstab[i].isallocated && !bstab[i].isopen && b.isallocated
    ensures FreeStores(bstab[i := b]) == FreeStores(bstab) - 1
  {
    var n := |bstab| - 1;
    if i < n {
      assert bstab[i := b][..n] == bstab[..n][i := b];
      FreeStoresUpdate(bstab[..n], i, b);
    } else {
      assert bstab[i := b][..n] == bstab[..n];
    }
  }

  /** A store that is not allocated maps nothing. */
  ghost predicate SpareUnmapped(s: Vm)
    requires |s.bsmap| == |s.bstab|
  {
    forall i :: 0 <= i < |s.bstab| && !s.bstab[i].isallocated ==> s.bsmap[i] == Bsent(false, 0, 0, 0)
  }

  /** Nothing of the process is resident, and none of its stores is mapped beyond page vpn. */
  ghost predicate Fresh(s: Vm, pid: int) {
    forall vpn {:trigger (pid, vpn) in s.at} :: (pid, vpn) !in s.at
  }

  lemma {:induction false} FindStoreAt(bsmap: seq<Bsent>, pid: int, vpn: int, i: nat, j: int)
    requires i <= j < |bsmap| && Covers(bsmap[j], pid, vpn)
    ensures FindStore(bsmap, pid, vpn, i) != -1
    decreases j - i
  {
    if i < j && !Covers(bsmap[i], pid, vpn) {
      FindStoreAt(bsmap, pid, vpn, i + 1, j);
    }
  }

  /** Mapping one store more. */
  lemma MapStoreKeeps(s: Vm, pid: int, npages: int, vpn: int)
    requires VmInv(s, -1) && SpareUnmapped(s) && pid > 0 && 0 < npages <= MAX_PAGES_PER_BS && FreeStores(s.bstab) > 0 && Fresh(s, pid)
    ensures var s' := MapStore(s, pid, npages, vpn);
      && VmInv(s', -1) && SpareUnmapped(s') && FreeStores(s'.bstab) == FreeStores(s.bstab) - 1
      && s' == s.(bsmap := s'.bsmap, bstab := s'.bstab)
      && (forall v :: vpn + 4096 <= v < vpn + 4096 + npages ==> Mapped(s', pid, v))
      && (forall v :: Mapped(s, pid, v) ==> Mapped(s', pid, v))
      && (forall q, v :: q > 0 && q != pid && Mapped(s, q, v) ==> Mapped(s', q, v) && Mem(s', q, v) == Mem(s, q, v))
  {
    assert VmInvSpelledOut(s);
    SomeFree(s.bstab);
    FreeStoreFound(s.bstab, npages, 0);
    var i, s' := FirstStore(s.bstab, npages, 0), MapStore(s, pid, npages, vpn);
    FreeStoresUpdate(s.bstab, i, Bs(true, true, 0, npages));
    forall v | vpn + 4096 <= v < vpn + 4096 + npages
      ensures Mapped(s', pid, v)
    {
      FindStoreAt(s'.bsmap, pid, v, 0, i);
    }
    forall v | Mapped(s, pid, v)
      ensures Mapped(s', pid, v)
    {
      FindStoreAt(s'.bsmap, pid, v, 0, Store(s, pid, v));
    }
    MapStoreInv(s, pid, npages, vpn);
    forall q, v | q > 0 && q != pid && Mapped(s, q, v)
      ensures Mapped(s', q, v) && Mem(s', q, v) == Mem(s, q, v)
    {
      MapStoreOther(s, pid, npages, vpn, q, v);
    }
  }

  lemma MapStoreOther(s: Vm, pid: int, npages: int, vpn: int, q: int, v: int)
    requires Sized(s) && SpareUnmapped(s) && Sized(MapStore(s, pid, npages, vpn)) && q > 0 && q != pid && Mapped(s, q, v)
    ensures Mapped(MapStore(s, pid, npages, vpn), q, v) && Mem(MapStore(s, pid, npages, vpn), q, v) == Mem(s, q, v)
  {
    var s', i := MapStore(s, pid, npages, vpn), FirstStore(s.bstab, npages, 0);
    forall j | 0 <= j < |s.bsmap|
      ensures s'.bsmap[j] == s.bsmap[j] || (s.bsmap[j].pid in {0, pid} && s'.bsmap[j].pid in {0, pid})
    {
      if j == i {
        assert s.bsmap[j] == Bsent(false, 0, 0, 0);
      }
    }
    FindStoreOther(s.bsmap, s'.bsmap, pid, q, v, 0);
    SameSlot(s, s', q, v);
  }

  /** A page that keeps its place in its store. */
  lemma SameSlot(s: Vm, s': Vm, q: int, v: int)
    requires Sized(s) && Sized(s') && Mapped(s, q, v) && Store(s', q, v) == Store(s, q, v)
    requires s'.bsmap[Store(s, q, v)] == s.bsmap[Store(s, q, v)] && s'.at == s.at && s'.data == s.data && s'.disk == s.disk
    ensures Mapped(s', q, v) && Mem(s', q, v) == Mem(s, q, v)
  {
    MappedSlot(s, q, v);
    MappedSlot(s', q, v);
  }

  lemma MapStoreInv(s: Vm, pid: int, npages: int, vpn: int)
    requires VmInv(s, -1) && SpareUnmapped(s) && pid > 0 && 0 < npages <= MAX_PAGES_PER_BS && Fresh(s, pid)
    ensures VmInv(MapStore(s, pid, npages, vpn), -1)
  {
    assert VmInvSpelledOut(s);
    var s' := MapStore(s, pid, npages, vpn);
    forall i | 0 <= i < MAX_BS
      ensures StoreOk(s'.bsmap[i], s'.bstab[i])
    {
      assert StoreOk(s.bsmap[i], s.bstab[i]);
    }
    forall g | 0 <= g < |s'.own|
      ensures Owned(s', g)
    {
      assert Owned(s, g);
    }
    assert Frames(s');
    forall p, v | (p, v) in s'.at
      ensures Mapped(s', p, v) && 0 <= v && (p, v / 1024) in s'.tab
    {
      assert (p, v) in s.at;
      assert InFrames(s, s.at[(p, v)], PageOf(p, v)) && Owned(s, s.at[(p, v)]);
      FindStoreOther(s.bsmap, s'.bsmap, pid, p, v, 0);
    }
    assert VmCore(s', -1);
  }

  /** If enough stores are free, the whole heap of a new process is mapped, and nothing changes for
      the others. */
  lemma {:induction false} HeapMapped(s: Vm, pid: int, remain: nat, t: nat)
    requires VmInv(s, -1) && SpareUnmapped(s) && pid > 0 && Fresh(s, pid) && remain <= 200 * FreeStores(s.bstab)
    ensures var s' := MapHeap(s, pid, remain, t);
      && VmInv(s', -1) && SpareUnmapped(s')
      && (forall v :: t * 200 + 4096 <= v < t * 200 + 4096 + remain ==> Mapped(s', pid, v))
      && (forall v :: Mapped(s, pid, v) ==> Mapped(s', pid, v))
      && (forall q, v :: q > 0 && q != pid && Mapped(s, q, v) ==> Mapped(s', q, v) && Mem(s', q, v) == Mem(s, q, v))
    decreases remain
  {
    if remain > MAX_PAGES_PER_BS {
      var s1 := MapStore(s, pid, MAX_PAGES_PER_BS, t * 200);
      MapStoreKeeps(s, pid, MAX_PAGES_PER_BS, t * 200);
      HeapMapped(s1, pid, remain - MAX_PAGES_PER_BS, t + 1);
      forall q, v | q > 0 && q != pid && Mapped(s, q, v)
        ensures Mapped(MapHeap(s, pid, remain, t), q, v) && Mem(MapHeap(s, pid, remain, t), q, v) == Mem(s, q, v)
      {
        assert Mapped(s1, q, v);
      }
    } else if remain > 0 {
      MapStoreKeeps(s, pid, remain, t * 200);
    }
  }
}
