/** Demand paging seen as flat memory: every process has the pages that its backing stores map,
    and a page's contents are in its frame while it is resident, in its store otherwise. */
module VmSpec {
  import opened DistinctLists
  import opened LfsDisk
  import opened BackingStore

  const NULL_PAGE := 0
  const PAGE_DIR := 1
  const PAGE_TAB := 2
  const PAGE := 3

  /** What a frame is used for. Claimed is the time between get_free_frame_number and the moment
      the caller has put the frame into a directory or table. */
  datatype Own =
    | NoOne
    | Static(kind: int)
    | Claimed(kind: int, pid: int, vpn: int)
    | DirOf(pid: int)
    | TabOf(pid: int, idx: int)
    | PageOf(pid: int, vpn: int)

  /** pt_acc and pt_dirty. */
  datatype Bits = Bits(acc: bool, dirty: bool)

  /** struct bsent. */
  datatype Bsent = Bsent(ifMap: bool, pid: int, npages: int, start: int)

  /** `dir`, `tab` and `at` say in which frame a directory, a table and a page are; `res` lists the
      frames of pages, the newest first; `hand` is a frame of that list or one of its two ends. */
  datatype Vm = Vm(own: seq<Own>, dir: map<int, int>, tab: map<(int, int), int>, at: map<(int, int), int>,
                   res: seq<int>, data: seq<Page>, bits: seq<Bits>, hand: int,
                   disk: Disk, bsmap: seq<Bsent>, bstab: seq<Bs>)

  /** The ends of the list of resident pages, as indices beyond the frames. */
  function HeadOf(s: Vm): int { |s.own| }

  function TailOf(s: Vm): int { |s.own| + 1 }

  function Kind(o: Own): int {
    match o
    case NoOne => NULL_PAGE
    case Static(k) => k
    case Claimed(k, _, _) => k
    case DirOf(_) => PAGE_DIR
    case TabOf(_, _) => PAGE_TAB
    case PageOf(_, _) => PAGE
  }

  // ---- where pages are stored

  predicate Covers(b: Bsent, pid: int, vpn: int) { pid == b.pid && b.start <= vpn && vpn - b.start < b.npages }

  /** get_store_offset: the first store from i on that has the page, or -1. */
  function FindStore(bsmap: seq<Bsent>, pid: int, vpn: int, i: nat): (r: int)
    requires i <= |bsmap|
    ensures r == -1 || (i <= r < |bsmap| && Covers(bsmap[r], pid, vpn))
    decreases |bsmap| - i
  {
    if i == |bsmap| then -1 else if Covers(bsmap[i], pid, vpn) then i else FindStore(bsmap, pid, vpn, i + 1)
  }

  predicate Mapped(s: Vm, pid: int, vpn: int) { FindStore(s.bsmap, pid, vpn, 0) != -1 }

  function Store(s: Vm, pid: int, vpn: int): int { FindStore(s.bsmap, pid, vpn, 0) }

  function Offset(s: Vm, pid: int, vpn: int): int
    requires Mapped(s, pid, vpn)
  {
    vpn - s.bsmap[Store(s, pid, vpn)].start
  }

  ghost predicate StoreOk(m: Bsent, b: Bs) {
    0 <= m.npages <= MAX_PAGES_PER_BS && (m.npages > 0 ==> m.ifMap && b.isopen && b.isallocated && m.npages <= b.npages)
  }

  /** Every mapped store is open and large enough. */
  ghost predicate StoresOk(bsmap: seq<Bsent>, bstab: seq<Bs>) {
    && |bsmap| == |bstab| == MAX_BS
    && (forall i :: 0 <= i < MAX_BS ==> StoreOk(bsmap[i], bstab[i]))
  }

  // ---- the abstract memory

  ghost predicate Sized(s: Vm) {
    |s.data| == |s.bits| == |s.own| && Roomy(s.disk) && StoresOk(s.bsmap, s.bstab)
  }

  lemma MappedSlot(s: Vm, pid: int, vpn: int)
    requires Sized(s) && Mapped(s, pid, vpn)
    ensures InStore(Store(s, pid, vpn), Offset(s, pid, vpn)) && Served(s.bstab, Store(s, pid, vpn), Offset(s, pid, vpn))
  {
  }

  /** Two mapped pages never share a place in a store. */
  lemma SlotsDiffer(s: Vm, pid: int, vpn: int, pid': int, vpn': int)
    requires Mapped(s, pid, vpn) && Mapped(s, pid', vpn')
    ensures Store(s, pid, vpn) == Store(s, pid', vpn') && Offset(s, pid, vpn) == Offset(s, pid', vpn') ==> pid == pid' && vpn == vpn'
  {
  }

  /** Distinct mapped pages never share a disk block. */
  lemma NoSharedBlock(s: Vm, pid: int, vpn: int, pid': int, vpn': int, i: int, i': int)
    requires Sized(s) && Mapped(s, pid, vpn) && Mapped(s, pid', vpn') && (pid, vpn) != (pid', vpn') && 0 <= i < 8 && 0 <= i' < 8
    ensures RdBlk(Store(s, pid, vpn), Offset(s, pid, vpn)) + i != RdBlk(Store(s, pid', vpn'), Offset(s, pid', vpn')) + i'
  {
    MappedSlot(s, pid, vpn);
    MappedSlot(s, pid', vpn');
    SlotsDiffer(s, pid, vpn, pid', vpn');
    BlocksDisjoint(Store(s, pid, vpn), Offset(s, pid, vpn), Store(s, pid', vpn'), Offset(s, pid', vpn'), i, i');
  }

  function Saved(s: Vm, pid: int, vpn: int): Page
    requires Roomy(s.disk) && Mapped(s, pid, vpn) && InStore(Store(s, pid, vpn), Offset(s, pid, vpn))
  {
    StoredPage(s.disk, Store(s, pid, vpn), Offset(s, pid, vpn))
  }

  /** The contents of a page of flat memory. */
  ghost function Mem(s: Vm, pid: int, vpn: int): Page
    requires Sized(s) && Mapped(s, pid, vpn)
  {
    MappedSlot(s, pid, vpn);
    if (pid, vpn) in s.at && 0 <= s.at[(pid, vpn)] < |s.data| then s.data[s.at[(pid, vpn)]] else Saved(s, pid, vpn)
  }

  /** The same pages are mapped, with the same contents. */
  ghost predicate SameMemory(s: Vm, s': Vm)
    requires Sized(s) && Sized(s')
  {
    s'.bsmap == s.bsmap && forall pid, vpn :: Mapped(s, pid, vpn) ==> Mem(s', pid, vpn) == Mem(s, pid, vpn)
  }

  // ---- the invariant

  ghost predicate Owned(s: Vm, f: int)
    requires 0 <= f < |s.own|
  {
    match s.own[f]
    case NoOne => true
    case Static(k) => k == PAGE_DIR || k == PAGE_TAB
    case Claimed(k, pid, _) => (k == PAGE_DIR || k == PAGE_TAB || k == PAGE) && pid > 0
    case DirOf(pid) => pid in s.dir && s.dir[pid] == f && pid > 0
    case TabOf(pid, idx) => (pid, idx) in s.tab && s.tab[(pid, idx)] == f && pid > 0
    case PageOf(pid, vpn) => (pid, vpn) in s.at && s.at[(pid, vpn)] == f && pid > 0
  }

  ghost predicate InFrames(s: Vm, f: int, o: Own) { 0 <= f < |s.own| && s.own[f] == o }

  /** Frames and what they hold correspond one to one. */
  ghost predicate Frames(s: Vm) {
    && (forall f {:trigger Owned(s, f)} :: 0 <= f < |s.own| ==> Owned(s, f))
    && (forall pid {:trigger pid in s.dir} :: pid in s.dir ==> InFrames(s, s.dir[pid], DirOf(pid)))
    && (forall pid, idx {:trigger (pid, idx) in s.tab} :: (pid, idx) in s.tab ==> InFrames(s, s.tab[(pid, idx)], TabOf(pid, idx)))
    && (forall pid, vpn {:trigger (pid, vpn) in s.at} :: (pid, vpn) in s.at ==> InFrames(s, s.at[(pid, vpn)], PageOf(pid, vpn)))
  }

  /** Every resident page is mapped, can be found through its table and directory, and has been
      accessed if it has been written. `dying` is a process that kill is taking apart. */
  ghost predicate Nested(s: Vm, dying: int) {
    && (forall pid, idx {:trigger (pid, idx) in s.tab} :: (pid, idx) in s.tab && pid != dying ==> pid in s.dir && 4 <= idx < 576)
    && (forall pid, vpn {:trigger (pid, vpn) in s.at} :: (pid, vpn) in s.at ==>
          Mapped(s, pid, vpn) && 0 <= vpn && (pid != dying ==> (pid, vpn / 1024) in s.tab))
  }

  ghost predicate BitsOk(s: Vm)
    requires |s.bits| == |s.own|
  {
    forall f :: 0 <= f < |s.own| && s.own[f].PageOf? && s.bits[f].dirty ==> s.bits[f].acc
  }

  /** The resident list has exactly the frames marked PAGE, once each. */
  ghost predicate Resident(s: Vm) {
    && (forall j, k :: 0 <= j < |s.res| && 0 <= k < |s.res| && j != k ==> s.res[j] != s.res[k])
    && (forall j :: 0 <= j < |s.res| ==> 0 <= s.res[j] < |s.own| && Kind(s.own[s.res[j]]) == PAGE)
    && (forall f :: 0 <= f < |s.own| && Kind(s.own[f]) == PAGE ==> f in s.res)
  }

  ghost predicate VmCore(s: Vm, dying: int) {
    Sized(s) && Frames(s) && Nested(s, dying) && BitsOk(s) && Resident(s)
  }

  /** Marks the states for which a proof needs VmInv spelled out. */
  ghost predicate VmInvSpelledOut(s: Vm) { true }

  /** VmCore, stated so that a proof that only passes it on need not look inside. */
  ghost predicate VmInv(s: Vm, dying: int) {
    Sized(s) && forall x {:trigger VmInvSpelledOut(x)} :: x == s ==> VmCore(x, dying)
  }

  /** No call is in the middle of setting up a frame. */
  ghost predicate Quiet(s: Vm) {
    forall f :: 0 <= f < |s.own| ==> !s.own[f].Claimed?
  }

  // ---- getting a frame

  /** The first free frame from i on, or the number of frames. */
  function FirstFree(own: seq<Own>, i: nat): (r: int)
    requires i <= |own|
    ensures i <= r <= |own| && (r < |own| ==> own[r] == NoOne) && forall j :: i <= j < r ==> own[j] != NoOne
    decreases |own| - i
  {
    if i == |own| || own[i] == NoOne then i else FirstFree(own, i + 1)
  }

  /** Save the page of frame f in its store and take it out of its table. */
  ghost function PagedOut(s: Vm, f: int): Vm
    requires Sized(s) && 0 <= f < |s.own| && s.own[f].PageOf? && Mapped(s, s.own[f].pid, s.own[f].vpn)
  {
    var pid, vpn := s.own[f].pid, s.own[f].vpn;
    MappedSlot(s, pid, vpn);
    s.(own := s.own[f := NoOne], at := s.at - {(pid, vpn)}, res := Without(s.res, f),
       disk := Written(s.disk, Store(s, pid, vpn), Offset(s, pid, vpn), s.data[f], 8))
  }

  /** No page of the table is resident. */
  ghost predicate TableEmpty(s: Vm, pid: int, idx: int) {
    forall vpn {:trigger (pid, vpn) in s.at} :: (pid, vpn) in s.at ==> vpn / 1024 != idx
  }

  /** A table with nothing in it is freed. */
  ghost function TableDropped(s: Vm, pid: int, idx: int): Vm {
    if TableEmpty(s, pid, idx) && (pid, idx) in s.tab && 0 <= s.tab[(pid, idx)] < |s.own| then
      s.(own := s.own[s.tab[(pid, idx)] := NoOne], tab := s.tab - {(pid, idx)})
    else s
  }

  /** What get_free_frame_number does to the page it replaces. */
  ghost function Evicted(s: Vm, f: int): Vm
    requires Sized(s) && 0 <= f < |s.own| && s.own[f].PageOf? && Mapped(s, s.own[f].pid, s.own[f].vpn)
  {
    TableDropped(PagedOut(s, f), s.own[f].pid, s.own[f].vpn / 1024)
  }

  function ClaimedBy(s: Vm, f: int, kind: int, pid: int, vpn: int): Vm
    requires 0 <= f < |s.own|
  {
    s.(own := s.own[f := Claimed(kind, pid, vpn)], res := if kind == PAGE then [f] + s.res else s.res)
  }

  // ---- using a frame

  function DirMapped(s: Vm, f: int, pid: int): Vm
    requires 0 <= f < |s.own|
  {
    s.(own := s.own[f := DirOf(pid)], dir := s.dir[pid := f])
  }

  function TabMapped(s: Vm, f: int, pid: int, idx: int): Vm
    requires 0 <= f < |s.own|
  {
    s.(own := s.own[f := TabOf(pid, idx)], tab := s.tab[(pid, idx) := f])
  }

  ghost function PageMapped(s: Vm, f: int, pid: int, vpn: int): Vm
    requires Sized(s) && 0 <= f < |s.own| && Mapped(s, pid, vpn)
  {
    MappedSlot(s, pid, vpn);
    s.(own := s.own[f := PageOf(pid, vpn)], at := s.at[(pid, vpn) := f], data := s.data[f := Saved(s, pid, vpn)],
       bits := s.bits[f := Bits(false, false)])
  }

  // ---- what the steps keep

  /** A resident page is mapped, and its frame, table and directory are where the maps say. */
  lemma PageAt(s: Vm, f: int)
    requires VmInv(s, -1) && 0 <= f < |s.own| && s.own[f].PageOf?
    ensures var pid, vpn := s.own[f].pid, s.own[f].vpn;
      && pid > 0 && (pid, vpn) in s.at && s.at[(pid, vpn)] == f && Mapped(s, pid, vpn) && 0 <= vpn
      && InStore(Store(s, pid, vpn), Offset(s, pid, vpn))
      && (pid, vpn / 1024) in s.tab && InFrames(s, s.tab[(pid, vpn / 1024)], TabOf(pid, vpn / 1024))
  {
    assert VmInvSpelledOut(s);
    assert Owned(s, f);
    assert (s.own[f].pid, s.own[f].vpn) in s.at;
    MappedSlot(s, s.own[f].pid, s.own[f].vpn);
  }

  lemma PageSlot(s: Vm, f: int, dying: int)
    requires VmInv(s, dying) && 0 <= f < |s.own| && s.own[f].PageOf?
    ensures var pid, vpn := s.own[f].pid, s.own[f].vpn;
      && pid > 0 && (pid, vpn) in s.at && s.at[(pid, vpn)] == f && Mapped(s, pid, vpn)
      && InStore(Store(s, pid, vpn), Offset(s, pid, vpn)) && Sized(PagedOut(s, f))
  {
    assert VmInvSpelledOut(s);
    assert Owned(s, f);
    var p, v := s.own[f].pid, s.own[f].vpn;
    assert (p, v) in s.at;
    MappedSlot(s, p, v);
    ReadBack(s.disk, Store(s, p, v), Offset(s, p, v), s.data[f], Store(s, p, v), Offset(s, p, v));
  }

  /** No other page is in the frame. */
  lemma FramesDiffer(s: Vm, f: int, dying: int, pid: int, vpn: int)
    requires VmInv(s, dying) && 0 <= f < |s.own| && s.own[f].PageOf?
    ensures (pid, vpn) in s.at ==> (s.at[(pid, vpn)] == f <==> s.own[f] == PageOf(pid, vpn))
  {
    assert VmInvSpelledOut(s);
    assert Owned(s, f);
    assert (pid, vpn) in s.at ==> InFrames(s, s.at[(pid, vpn)], PageOf(pid, vpn));
  }

  lemma PagedOutMem(s: Vm, f: int, dying: int, pid: int, vpn: int)
    requires VmInv(s, dying) && 0 <= f < |s.own| && s.own[f].PageOf? && Mapped(s, pid, vpn)
    ensures Mapped(s, s.own[f].pid, s.own[f].vpn) && Sized(PagedOut(s, f))
    ensures Mem(PagedOut(s, f), pid, vpn) == Mem(s, pid, vpn)
  {
    hide FindStore, StoresOk, Written, StoredPage, Without;
    PageSlot(s, f, dying);
    FramesDiffer(s, f, dying, pid, vpn);
    var p, v := s.own[f].pid, s.own[f].vpn;
    MappedSlot(s, pid, vpn);
    SlotsDiffer(s, p, v, pid, vpn);
    ReadBack(s.disk, Store(s, p, v), Offset(s, p, v), s.data[f], Store(s, pid, vpn), Offset(s, pid, vpn));
  }

  /** Saving any page changes no page of any process. */
  lemma PagedOutMemory(s: Vm, f: int, dying: int)
    requires VmInv(s, dying) && 0 <= f < |s.own| && s.own[f].PageOf?
    ensures Mapped(s, s.own[f].pid, s.own[f].vpn) && Sized(PagedOut(s, f)) && SameMemory(s, PagedOut(s, f))
  {
    PageSlot(s, f, dying);
    forall pid, vpn | Mapped(s, pid, vpn)
      ensures Mem(PagedOut(s, f), pid, vpn) == Mem(s, pid, vpn)
    {
      PagedOutMem(s, f, dying, pid, vpn);
    }
  }

  /** Evicting any page changes no page of any process. */
  lemma EvictKeepsMemory(s: Vm, f: int)
    requires VmInv(s, -1) && 0 <= f < |s.own| && s.own[f].PageOf?
    ensures Mapped(s, s.own[f].pid, s.own[f].vpn) && Sized(Evicted(s, f))
    ensures SameMemory(s, Evicted(s, f))
  {
    PagedOutMemory(s, f, -1);
    forall pid, vpn | Mapped(s, pid, vpn)
      ensures Mem(Evicted(s, f), pid, vpn) == Mem(s, pid, vpn)
    {
      assert Mem(PagedOut(s, f), pid, vpn) == Mem(s, pid, vpn);
    }
  }

  lemma PagedOutFrames(s: Vm, f: int, dying: int)
    requires VmInv(s, dying) && 0 <= f < |s.own| && s.own[f].PageOf?
    ensures Mapped(s, s.own[f].pid, s.own[f].vpn) && Frames(PagedOut(s, f)) && Nested(PagedOut(s, f), dying)
  {
    assert VmInvSpelledOut(s);
    PageSlot(s, f, dying);
    var s' := PagedOut(s, f);
    forall g | 0 <= g < |s'.own|
      ensures Owned(s', g)
    {
      assert Owned(s, g);
    }
  }

  lemma PagedOutKeeps(s: Vm, f: int, dying: int)
    requires VmInv(s, dying) && 0 <= f < |s.own| && s.own[f].PageOf?
    ensures Mapped(s, s.own[f].pid, s.own[f].vpn) && VmInv(PagedOut(s, f), dying) && PagedOut(s, f).own[f] == NoOne
  {
    hide InFrames, Mem, Sized;
    assert VmInvSpelledOut(s);
    PageSlot(s, f, dying);
    PagedOutFrames(s, f, dying);
    var s' := PagedOut(s, f);
    WithoutIs(s.res, f);
    forall j | 0 <= j < |s'.res|
      ensures 0 <= s'.res[j] < |s'.own| && Kind(s'.own[s'.res[j]]) == PAGE
    {
      assert s'.res[j] in s'.res;
    }
    assert VmCore(s', dying);
  }

  lemma TableDroppedKeeps(s: Vm, pid: int, idx: int)
    requires VmInv(s, -1)
    ensures VmInv(TableDropped(s, pid, idx), -1)
  {
    hide FindStore, StoresOk;
    assert VmInvSpelledOut(s);
    var s' := TableDropped(s, pid, idx);
    if s' != s {
      var b := s.tab[(pid, idx)];
      assert InFrames(s, b, TabOf(pid, idx));
      forall g | 0 <= g < |s'.own|
        ensures Owned(s', g)
      {
        assert Owned(s, g);
      }
      assert Frames(s');
      forall p, v | (p, v) in s'.at
        ensures (p, v / 1024) in s'.tab && Mapped(s', p, v) && 0 <= v
      {
        assert (p, v) in s.at;
        assert InFrames(s, s.at[(p, v)], PageOf(p, v)) && Owned(s, s.at[(p, v)]);
      }
      assert VmCore(s', -1);
    }
  }

  lemma EvictKeeps(s: Vm, f: int)
    requires VmInv(s, -1) && 0 <= f < |s.own| && s.own[f].PageOf?
    ensures Mapped(s, s.own[f].pid, s.own[f].vpn) && VmInv(Evicted(s, f), -1)
    ensures Evicted(s, f).own[f] == NoOne && |Evicted(s, f).own| == |s.own|
  {
    assert VmInvSpelledOut(s);
    PagedOutKeeps(s, f, -1);
    TableDroppedKeeps(PagedOut(s, f), s.own[f].pid, s.own[f].vpn / 1024);
  }

  /** What eviction changes. */
  lemma EvictedFacts(s: Vm, f: int)
    requires Sized(s) && 0 <= f < |s.own| && s.own[f].PageOf? && Mapped(s, s.own[f].pid, s.own[f].vpn)
    ensures var s' := Evicted(s, f);
      && |s'.own| == |s.own| && s'.dir == s.dir && s'.res == Without(s.res, f) && s'.bits == s.bits && s'.hand == s.hand && s'.bsmap == s.bsmap
      && (forall g :: 0 <= g < |s.own| ==> s'.own[g] == s.own[g] || s'.own[g] == NoOne)
      && (forall k :: k in s'.at <==> k in s.at && k != (s.own[f].pid, s.own[f].vpn))
      && (forall k :: k in s'.tab ==> k in s.tab && s'.tab[k] == s.tab[k])
  {
  }

  lemma ClaimFrames(s: Vm, f: int, kind: int, pid: int, vpn: int)
    requires VmInv(s, -1) && 0 <= f < |s.own| && s.own[f] == NoOne && kind in {PAGE_DIR, PAGE_TAB, PAGE} && pid > 0
    ensures Frames(ClaimedBy(s, f, kind, pid, vpn)) && Nested(ClaimedBy(s, f, kind, pid, vpn), -1)
  {
    hide StoresOk, FindStore, Frames, Nested, Resident;
    assert VmInvSpelledOut(s);
    ClaimOwned(s, f, kind, pid, vpn);
    ClaimNested(s, f, kind, pid, vpn);
  }

  lemma ClaimOwned(s: Vm, f: int, kind: int, pid: int, vpn: int)
    requires Frames(s) && 0 <= f < |s.own| && s.own[f] == NoOne && kind in {PAGE_DIR, PAGE_TAB, PAGE} && pid > 0
    ensures Frames(ClaimedBy(s, f, kind, pid, vpn))
  {
    var s' := ClaimedBy(s, f, kind, pid, vpn);
    forall g | 0 <= g < |s'.own|
      ensures Owned(s', g)
    {
      assert Owned(s, g);
    }
  }

  lemma ClaimNested(s: Vm, f: int, kind: int, pid: int, vpn: int)
    requires Nested(s, -1) && 0 <= f < |s.own|
    ensures Nested(ClaimedBy(s, f, kind, pid, vpn), -1)
  {
    hide FindStore;
  }

  lemma ClaimResident(s: Vm, f: int, kind: int, pid: int, vpn: int)
    requires VmInv(s, -1) && 0 <= f < |s.own| && s.own[f] == NoOne && kind in {PAGE_DIR, PAGE_TAB, PAGE}
    ensures Resident(ClaimedBy(s, f, kind, pid, vpn))
  {
    hide StoresOk, FindStore, Frames, Nested, Resident;
    assert VmInvSpelledOut(s);
    ClaimList(s, f, kind, pid, vpn);
  }

  lemma ClaimList(s: Vm, f: int, kind: int, pid: int, vpn: int)
    requires Resident(s) && 0 <= f < |s.own| && s.own[f] == NoOne && kind in {PAGE_DIR, PAGE_TAB, PAGE}
    ensures Resident(ClaimedBy(s, f, kind, pid, vpn))
  {
    var s' := ClaimedBy(s, f, kind, pid, vpn);
    if kind == PAGE {
      assert f !in s.res;
      assert s'.res[0] == f && s'.res[1..] == s.res;
    }
  }

  lemma ClaimKeeps(s: Vm, f: int, kind: int, pid: int, vpn: int)
    requires VmInv(s, -1) && 0 <= f < |s.own| && s.own[f] == NoOne && kind in {PAGE_DIR, PAGE_TAB, PAGE} && pid > 0
    ensures VmInv(ClaimedBy(s, f, kind, pid, vpn), -1) && SameMemory(s, ClaimedBy(s, f, kind, pid, vpn))
  {
    hide FindStore, StoresOk, Frames, Nested, Resident;
    assert VmInvSpelledOut(s);
    ClaimFrames(s, f, kind, pid, vpn);
    ClaimResident(s, f, kind, pid, vpn);
    assert VmCore(ClaimedBy(s, f, kind, pid, vpn), -1);
  }
}
