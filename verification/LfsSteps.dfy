/** Every step of the local file system keeps the invariant of LfsModel: write-back, loading
    blocks, taking blocks from the free lists, storing bytes, truncation, opening. */
module LfsSteps {
  import opened LfsFormat
  import opened LfsDisk
  import opened BlockPool
  import opened LfsModel

  // ---- free lists

  /** The free lists depend only on the links of the blocks that are on them. */
  lemma ListsWith(s: Fs, s': Fs)
    requires Shape(s) && Lists(s)
    requires s'.ip.free == s.ip.free && s'.dp.free == s.dp.free
    requires s'.dir.ifree == s.dir.ifree && s'.dir.dfree == s.dir.dfree
    requires |s'.ibs| == |s.ibs| && |s'.links| == |s.links|
    requires forall b :: b in s.ip.own && s.ip.own[b].OnFree? ==> s'.ibs[b].next == s.ibs[b].next
    requires forall d :: d in s.dp.own && s.dp.own[d].OnFree? ==> s'.links[d] == s.links[d]
    ensures Lists(s')
  {
    forall k | 0 <= k < |s.ip.free|
      ensures s'.ibs[s.ip.free[k]].next == Link(s.ip.free, k)
    {
      assert s.ip.own[s.ip.free[k]] == OnFree(k);
      assert s.ibs[s.ip.free[k]].next == Link(s.ip.free, k);
    }
    forall k | 0 <= k < |s.dp.free|
      ensures s'.links[s.dp.free[k]] == Link(s.dp.free, k)
    {
      assert s.dp.own[s.dp.free[k]] == OnFree(k);
      assert s.links[s.dp.free[k]] == Link(s.dp.free, k);
    }
  }

  lemma PoppedILinks(ibs: seq<Iblk>, free: seq<int>)
    requires free != [] && ILinked(ibs, free)
    ensures 0 <= Head(free) < |ibs| && ibs[Head(free)].next == Head(free[..|free| - 1])
    ensures ILinked(ibs, free[..|free| - 1])
  {
    var t, n := free[..|free| - 1], |free| - 1;
    assert ibs[free[n]].next == Link(free, n);
    forall k | 0 <= k < |t|
      ensures ibs[t[k]].next == Link(t, k)
    {
      assert ibs[free[k]].next == Link(free, k);
    }
  }

  lemma PoppedDLinks(links: seq<int>, free: seq<int>)
    requires free != [] && DLinked(links, free)
    ensures 0 <= Head(free) < |links| && links[Head(free)] == Head(free[..|free| - 1])
    ensures DLinked(links, free[..|free| - 1])
  {
    var t, n := free[..|free| - 1], |free| - 1;
    assert links[free[n]] == Link(free, n);
    forall k | 0 <= k < |t|
      ensures links[t[k]] == Link(t, k)
    {
      assert links[free[k]] == Link(free, k);
    }
  }

  // ---- writing sectors

  /** The snapshot with data sector d overwritten. */
  function WroteData(s: Fs, d: int, x: Sector): Fs
    requires 0 <= d < |s.disk| == |s.links|
  {
    s.(disk := s.disk[d := x], links := s.links[d := LinkWord(x)])
  }

  /** The directory on disk is not part of what Core says. */
  lemma DirWriteKeeps(s: Fs, d: Dir)
    requires Sound(s)
    ensures Sound(s.(ddir := d))
  {
    assert SoundSpelledOut(s);
    var s' := s.(ddir := d);
    ShapeWith(s, s');
    ListsWith(s, s');
    forall g | 0 <= g < |s.data|
      ensures EntryOk(s', g) && FileAt(s', g)
    {
      assert FileAt(s, g);
    }
    assert Core(s');
  }

  /** Writing back the cached data block. */
  function FlushedData(s: Fs, f: int): Fs
    requires Sizes(s) && 0 <= f < |s.data| && 0 <= s.cbs[f].dnum < |s.disk|
  {
    WroteData(s, s.cbs[f].dnum, s.cbs[f].dblock).(cbs := s.cbs[f := s.cbs[f].(dbdirty := false)])
  }

  lemma FlushDataKeeps(s: Fs, f: int)
    requires Sound(s) && 0 <= f < |s.data| && s.cbs[f].dnum != LF_DNULL
    ensures s.nib < s.cbs[f].dnum < |s.disk| && Sound(FlushedData(s, f))
  {
    assert SoundSpelledOut(s);
    assert FileAt(s, f);
    FileBlocks(s.dp, f, s.nib + 1, |s.disk|);
    FlushDataFile(s.ibs, s.disk, s.ip.lists[f], s.dp.lists[f], s.data[f], s.cbs[f]);
    var s' := FlushedData(s, f);
    ShapeWith(s, s');
    ListsWith(s, s');
    StepKeeps(s, s', f);
  }

  /** Writing back the cached index block. */
  function FlushedIblk(s: Fs, f: int): Fs
    requires Sizes(s) && 0 <= f < |s.data| && 0 <= s.cbs[f].inum < |s.ibs|
  {
    s.(ibs := s.ibs[s.cbs[f].inum := s.cbs[f].iblock], cbs := s.cbs[f := s.cbs[f].(ibdirty := false)])
  }

  lemma IblkForWf(ich: seq<int>, dch: seq<int>, k: int)
    requires 0 <= k < |ich| && 16 * (|ich| - 1) <= |dch| < 0x80_0000
    requires forall j :: 0 <= j < |ich| ==> 0 <= ich[j] < 0x8000_0000
    requires forall j :: 0 <= j < |dch| ==> 0 <= dch[j] < 0x8000_0000
    ensures WfIblk(IblkFor(ich, dch, k))
  {
  }

  /** A cached index block fits its C struct: no file is longer than the disk. */
  lemma CachedIblkWf(s: Fs, f: int)
    requires Core(s) && 0 <= f < |s.data| && s.cbs[f].inum != LF_INULL
    ensures WfIblk(s.cbs[f].iblock)
  {
    assert FileAt(s, f);
    var ich, dch := s.ip.lists[f], s.dp.lists[f];
    var k :| 0 <= k < |ich| && ich[k] == s.cbs[f].inum;
    assert s.cbs[f].iblock == IblkFor(ich, dch, k);
    FileFits(s.dp, f, s.nib + 1, |s.disk|);
    FileBlocks(s.ip, f, 0, 7 * s.nib);
    FileBlocks(s.dp, f, s.nib + 1, |s.disk|);
    IblkForWf(ich, dch, k);
  }

  lemma FlushIblkKeeps(s: Fs, f: int)
    requires Sound(s) && 0 <= f < |s.data| && s.cbs[f].inum != LF_INULL
    ensures 0 <= s.cbs[f].inum < |s.ibs| && WfIblk(s.cbs[f].iblock) && Sound(FlushedIblk(s, f))
  {
    assert SoundSpelledOut(s);
    assert FileAt(s, f);
    CachedIblkWf(s, f);
    FileBlocks(s.ip, f, 0, 7 * s.nib);
    FlushIblkFile(s.ibs, s.disk, s.ip.lists[f], s.dp.lists[f], s.data[f], s.cbs[f]);
    var s' := FlushedIblk(s, f);
    ShapeWith(s, s');
    ListsWith(s, s');
    StepKeeps(s, s', f);
  }

  // ---- loading blocks into the caches

  /** Any change of f's control block alone keeps the invariant if it keeps file f. */
  lemma CacheKeeps(s: Fs, f: int, c: Cb)
    requires Sound(s) && 0 <= f < |s.data|
    requires FileOk(s.ibs, s.disk, s.ip.lists[f], s.dp.lists[f], s.data[f], c)
    ensures Sound(s.(cbs := s.cbs[f := c]))
  {
    assert SoundSpelledOut(s);
    var s' := s.(cbs := s.cbs[f := c]);
    ShapeWith(s, s');
    ListsWith(s, s');
    assert FileAt(s, f);
    StepKeeps(s, s', f);
  }

  /** The position and the byte pointer are no part of what Sound says. */
  lemma PointerKeeps(s: Fs, f: int, pos: int, byte: int)
    requires Sound(s) && 0 <= f < |s.data|
    ensures Sound(s.(cbs := s.cbs[f := s.cbs[f].(pos := pos, byte := byte)]))
  {
    assert SoundSpelledOut(s);
    assert FileAt(s, f);
    CacheKeeps(s, f, s.cbs[f].(pos := pos, byte := byte));
  }

  lemma LoadIblkKeeps(s: Fs, f: int, k: int, dropData: bool)
    requires Sound(s) && 0 <= f < |s.data| && 0 <= k < |s.ip.lists[f]|
    requires !s.cbs[f].ibdirty && !s.cbs[f].dbdirty
    ensures 0 <= s.ip.lists[f][k] < |s.ibs|
    ensures s.ibs[s.ip.lists[f][k]] == IblkFor(s.ip.lists[f], s.dp.lists[f], k)
    ensures var b, c := s.ip.lists[f][k], s.cbs[f];
      Sound(s.(cbs := s.cbs[f := c.(inum := b, iblock := s.ibs[b], dnum := if dropData then LF_DNULL else c.dnum)]))
  {
    assert SoundSpelledOut(s);
    assert FileAt(s, f);
    FileBlocks(s.ip, f, 0, 7 * s.nib);
    FileBlocks(s.dp, f, s.nib + 1, |s.disk|);
    LoadIblkFile(s.ibs, s.disk, s.ip.lists[f], s.dp.lists[f], s.data[f], s.cbs[f], k, dropData);
    var b, c := s.ip.lists[f][k], s.cbs[f];
    CacheKeeps(s, f, c.(inum := b, iblock := s.ibs[b], dnum := if dropData then LF_DNULL else c.dnum));
  }

  lemma LoadDataKeeps(s: Fs, f: int, q: int)
    requires Sound(s) && 0 <= f < |s.data| && 0 <= q < |s.dp.lists[f]|
    requires !s.cbs[f].dbdirty
    ensures s.nib < s.dp.lists[f][q] < |s.disk|
    ensures var d := s.dp.lists[f][q];
      Sound(s.(cbs := s.cbs[f := s.cbs[f].(dnum := d, dblock := s.disk[d], dbdirty := false)]))
  {
    assert SoundSpelledOut(s);
    assert FileAt(s, f);
    FileBlocks(s.dp, f, s.nib + 1, |s.disk|);
    LoadDataFile(s.ibs, s.disk, s.ip.lists[f], s.dp.lists[f], s.data[f], s.cbs[f], q);
    var d := s.dp.lists[f][q];
    CacheKeeps(s, f, s.cbs[f].(dnum := d, dblock := s.disk[d], dbdirty := false));
  }

  /** A clean cache may be dropped. */
  lemma ResetKeeps(s: Fs, f: int, c: Cb)
    requires Sound(s) && 0 <= f < |s.data| && !s.cbs[f].ibdirty && !s.cbs[f].dbdirty
    requires c.inum == LF_INULL && c.dnum == LF_DNULL && !c.ibdirty && !c.dbdirty
    ensures Sound(s.(cbs := s.cbs[f := c]))
  {
    assert SoundSpelledOut(s);
    assert FileAt(s, f);
    FileBlocks(s.ip, f, 0, 7 * s.nib);
    FileBlocks(s.dp, f, s.nib + 1, |s.disk|);
    CacheKeeps(s, f, c);
  }

  // ---- allocation

  /** An empty file gets its first index block, cleared in the cache only. */
  function TookFirst(s: Fs, f: int): Fs
    requires Sizes(s) && 0 <= f < |s.data| && s.ip.free != [] && 0 <= Head(s.ip.free) < |s.ibs|
  {
    var b := Head(s.ip.free);
    s.(ddir := s.dir.(ifree := s.ibs[b].next),
       dir := s.dir.(ifree := s.ibs[b].next, files := s.dir.files[f := s.dir.files[f].(ilist := b)]),
       ip := Take(s.ip, f),
       cbs := s.cbs[f := s.cbs[f].(inum := b, iblock := ClearIblk(0), ibdirty := true)])
  }

  /** What every step that takes an index block owes to the free list. */
  lemma TakeIblk(s: Fs, f: int)
    requires Shape(s) && Lists(s) && 0 <= f < |s.data| && s.ip.free != []
    ensures var b := Head(s.ip.free);
      0 <= b < |s.ibs| && IsId(b) && IsId(s.ibs[b].next) && s.ip.own[b].OnFree?
      && s.ibs[b].next == Head(Take(s.ip, f).free) && ILinked(s.ibs, Take(s.ip, f).free)
    ensures PoolOk(Take(s.ip, f), 0, 7 * s.nib)
  {
    HeadOk(s.ip, 0, 7 * s.nib);
    PoppedILinks(s.ibs, s.ip.free);
    TakeKeeps(s.ip, f, 0, 7 * s.nib);
    HeadOk(Take(s.ip, f), 0, 7 * s.nib);
  }

  lemma TakeFirstKeeps(s: Fs, f: int)
    requires Sound(s) && 0 <= f < |s.data| && s.ip.free != [] && s.ip.lists[f] == []
    ensures 0 <= Head(s.ip.free) < |s.ibs| && Sound(TookFirst(s, f))
  {
    assert SoundSpelledOut(s);
    TakeIblk(s, f);
    var b, s' := Head(s.ip.free), TookFirst(s, f);
    ShapeWith(s, s');
    assert FileAt(s, f);
    assert s.dp.lists[f] == [];
    FirstIblkFile(s.ibs, s.disk, s.data[f], s.cbs[f], b);
    StepKeeps(s, s', f);
  }

  /** A full chain grows by one index block. */
  function Extended(s: Fs, f: int): Fs
    requires Sizes(s) && 0 <= f < |s.data| && s.ip.free != [] && 0 <= Head(s.ip.free) < |s.ibs|
    requires 0 <= s.cbs[f].inum < |s.ibs|
  {
    var b, c := Head(s.ip.free), s.cbs[f];
    s.(ibs := s.ibs[c.inum := c.iblock.(next := b)],
       ddir := s.dir.(ifree := s.ibs[b].next),
       dir := s.dir.(ifree := s.ibs[b].next),
       ip := Take(s.ip, f),
       cbs := s.cbs[f := c.(inum := b, iblock := ClearIblk(c.iblock.offset + 8192), ibdirty := true, dnum := LF_DNULL)])
  }

  lemma ILinkedAfter(ibs: seq<Iblk>, free: seq<int>, b: int, ib: Iblk)
    requires ILinked(ibs, free) && 0 <= b < |ibs| && b !in free
    ensures ILinked(ibs[b := ib], free)
  {
    forall k | 0 <= k < |free|
      ensures ibs[b := ib][free[k]].next == Link(free, k)
    {
      assert ibs[free[k]].next == Link(free, k);
    }
  }

  lemma ExtendFile'(s: Fs, f: int)
    requires Core(s) && 0 <= f < |s.data| && s.ip.free != [] && s.ip.lists[f] != []
    requires |s.dp.lists[f]| == 16 * |s.ip.lists[f]|
    requires s.cbs[f].inum == s.ip.lists[f][|s.ip.lists[f]| - 1]
    requires !s.cbs[f].ibdirty && !s.cbs[f].dbdirty && 0 <= Head(s.ip.free) < |s.ibs|
    ensures 0 <= s.cbs[f].inum < |s.ibs| && s.ip.own[s.cbs[f].inum] == InFile(f, |s.ip.lists[f]| - 1)
    ensures FileOk(Extended(s, f).ibs, s.disk, s.ip.lists[f] + [Head(s.ip.free)], s.dp.lists[f], s.data[f], Extended(s, f).cbs[f])
  {
    assert FileAt(s, f);
    FileBlocks(s.ip, f, 0, 7 * s.nib);
    FileBlocks(s.dp, f, s.nib + 1, |s.disk|);
    ExtendFile(s.ibs, s.disk, s.ip.lists[f], s.dp.lists[f], s.data[f], s.cbs[f], Head(s.ip.free));
  }

  lemma ExtendKeeps(s: Fs, f: int)
    requires Sound(s) && 0 <= f < |s.data| && s.ip.free != [] && s.ip.lists[f] != []
    requires |s.dp.lists[f]| == 16 * |s.ip.lists[f]|
    requires s.cbs[f].inum == s.ip.lists[f][|s.ip.lists[f]| - 1]
    requires !s.cbs[f].ibdirty && !s.cbs[f].dbdirty
    ensures 0 <= Head(s.ip.free) < |s.ibs| && 0 <= s.cbs[f].inum < |s.ibs|
    ensures WfIblk(s.cbs[f].iblock.(next := Head(s.ip.free)))
    ensures Sound(Extended(s, f))
  {
    hide FileAt, FileOk, OnDisk;
    assert SoundSpelledOut(s);
    TakeIblk(s, f);
    ExtendFile'(s, f);
    assert EntryOk(s, f);
    CachedIblkWf(s, f);
    var b, s' := Head(s.ip.free), Extended(s, f);
    ShapeWith(s, s');
    forall k | 0 <= k < |s'.ip.free|
      ensures s'.ip.free[k] != s.cbs[f].inum
    {
      assert s.ip.own[s.ip.free[k]] == OnFree(k);
    }
    ILinkedAfter(s.ibs, s'.ip.free, s.cbs[f].inum, s.cbs[f].iblock.(next := b));
    assert s'.ip.lists[f][0] == s.ip.lists[f][0];
    StepKeeps(s, s', f);
  }

  /** The file gets one more data block, filled with `fill` and known only to the caches. */
  function TookData(s: Fs, f: int, fill: Byte): Fs
    requires Sizes(s) && 0 <= f < |s.data| && s.dp.free != [] && 0 <= Head(s.dp.free) < |s.links|
    requires |s.cbs[f].iblock.dba| == LF_IBLEN
  {
    var d, c, j := Head(s.dp.free), s.cbs[f], |s.dp.lists[f]| % 16;
    s.(ddir := s.dir.(dfree := s.links[d]),
       dir := s.dir.(dfree := s.links[d]),
       dp := Take(s.dp, f),
       cbs := s.cbs[f := c.(iblock := c.iblock.(dba := c.iblock.dba[j := d]), ibdirty := true, dnum := d, dblock := Fill(fill))])
  }

  lemma TakeDblk(s: Fs, f: int)
    requires Shape(s) && Lists(s) && 0 <= f < |s.data| && s.dp.free != []
    ensures var d := Head(s.dp.free);
      s.nib < d < |s.disk| && IsId(s.links[d]) && s.dp.own[d].OnFree?
      && s.links[d] == Head(Take(s.dp, f).free) && DLinked(s.links, Take(s.dp, f).free)
    ensures PoolOk(Take(s.dp, f), s.nib + 1, |s.disk|)
  {
    HeadOk(s.dp, s.nib + 1, |s.disk|);
    PoppedDLinks(s.links, s.dp.free);
    TakeKeeps(s.dp, f, s.nib + 1, |s.disk|);
    HeadOk(Take(s.dp, f), s.nib + 1, |s.disk|);
  }

  lemma TakeDataFile'(s: Fs, f: int, fill: Byte)
    requires Core(s) && 0 <= f < |s.data| && s.dp.free != [] && s.nib < Head(s.dp.free) < |s.disk|
    requires |s.dp.lists[f]| < 16 * |s.ip.lists[f]| && |s.data[f]| <= 512 * |s.dp.lists[f]|
    requires s.cbs[f].inum == s.ip.lists[f][|s.dp.lists[f]| / 16] && !s.cbs[f].dbdirty
    ensures |s.cbs[f].iblock.dba| == LF_IBLEN && s.cbs[f].iblock.dba[|s.dp.lists[f]| % 16] == LF_DNULL
    ensures FileOk(s.ibs, s.disk, s.ip.lists[f], s.dp.lists[f] + [Head(s.dp.free)], s.data[f], TookData(s, f, fill).cbs[f])
  {
    assert FileAt(s, f);
    FileBlocks(s.ip, f, 0, 7 * s.nib);
    FileBlocks(s.dp, f, s.nib + 1, |s.disk|);
    TakeDataFile(s.ibs, s.disk, s.ip.lists[f], s.dp.lists[f], s.data[f], s.cbs[f], Head(s.dp.free), Fill(fill));
  }

  lemma TakeDataKeeps(s: Fs, f: int, fill: Byte)
    requires Sound(s) && 0 <= f < |s.data| && s.dp.free != []
    requires |s.dp.lists[f]| < 16 * |s.ip.lists[f]| && |s.data[f]| <= 512 * |s.dp.lists[f]|
    requires s.cbs[f].inum == s.ip.lists[f][|s.dp.lists[f]| / 16] && !s.cbs[f].dbdirty
    ensures |s.cbs[f].iblock.dba| == LF_IBLEN && s.nib < Head(s.dp.free) < |s.links|
    ensures Sound(TookData(s, f, fill))
  {
    assert SoundSpelledOut(s);
    TakeDblk(s, f);
    TakeDataFile'(s, f, fill);
    assert EntryOk(s, f);
    var s' := TookData(s, f, fill);
    ShapeWith(s, s');
    StepKeeps(s, s', f);
  }

  // ---- storing a byte

  function PutByte(s: Fs, f: int, ch: Byte): Fs
    requires Sizes(s) && 0 <= f < |s.data|
    requires 0 <= s.cbs[f].pos <= |s.data[f]| && 0 <= s.cbs[f].byte < LF_BLKSIZ
  {
    var data := PutAt(s.data[f], s.cbs[f].pos, ch);
    s.(data := s.data[f := data],
       dir := s.dir.(files := s.dir.files[f := s.dir.files[f].(size := |data|)]),
       cbs := s.cbs[f := PutCb(s.cbs[f], ch)])
  }

  lemma PutByteKeeps(s: Fs, f: int, ch: Byte)
    requires Sound(s) && 0 <= f < |s.data| && PosOk(s.dp.lists[f], |s.data[f]|, s.cbs[f]) && s.cbs[f].byte < LF_BLKSIZ
    requires |s.data[f]| < 512 * |s.dp.lists[f]| || s.cbs[f].pos < |s.data[f]|
    requires |s.data[f]| <= 512 * |s.dp.lists[f]|
    ensures Sound(PutByte(s, f, ch))
    ensures PosOk(s.dp.lists[f], |PutByte(s, f, ch).data[f]|, PutByte(s, f, ch).cbs[f])
  {
    hide FileOk, OnDisk, Cached;
    assert SoundSpelledOut(s);
    assert FileAt(s, f);
    FileFits(s.dp, f, s.nib + 1, |s.disk|);
    FileBlocks(s.dp, f, s.nib + 1, |s.disk|);
    PutByteFile(s.ibs, s.disk, s.ip.lists[f], s.dp.lists[f], s.data[f], s.cbs[f], ch);
    var s' := PutByte(s, f, ch);
    ShapeWith(s, s');
    ListsWith(s, s');
    StepKeeps(s, s', f);
  }

  // ---- truncation

  function NextIn(l: seq<int>, k: nat, end: int): int { if k + 1 < |l| then l[k + 1] else end }

  function PrevIn(l: seq<int>, k: nat, start: int): int { if 0 < k <= |l| then l[k - 1] else start }

  /** What the walk of lftruncate leaves on disk: the index chain now ends in the old free
      list, the data blocks are linked in the order they were freed, nothing else moved. */
  ghost predicate Walked(s: Fs, f: int, ibs: seq<Iblk>, disk: Disk, links: seq<int>)
    requires Shape(s) && 0 <= f < |s.data|
  {
    var ich, dch := s.ip.lists[f], s.dp.lists[f];
    && |ibs| == |s.ibs| && |disk| == |links| == |s.disk|
    && (forall k {:trigger NextIn(ich, k, Head(s.ip.free))} :: 0 <= k < |ich| ==>
          0 <= ich[k] < |ibs| && ibs[ich[k]].next == NextIn(ich, k, Head(s.ip.free)))
    && (forall q {:trigger PrevIn(dch, q, Head(s.dp.free))} :: 0 <= q < |dch| ==>
          0 <= dch[q] < |links| && links[dch[q]] == PrevIn(dch, q, Head(s.dp.free)))
    && (forall b :: b in s.ip.own && !(s.ip.own[b].InFile? && s.ip.own[b].f == f) ==> ibs[b] == s.ibs[b])
    && (forall d :: d in s.dp.own && !(s.dp.own[d].InFile? && s.dp.own[d].f == f) ==> links[d] == s.links[d] && disk[d] == s.disk[d])
  }

  /** A chain whose last block points at the head of the free list makes one longer free list. */
  lemma Spliced(ibs: seq<Iblk>, free: seq<int>, ich: seq<int>)
    requires ILinked(ibs, free)
    requires forall k {:trigger NextIn(ich, k, Head(free))} :: 0 <= k < |ich| ==>
               0 <= ich[k] < |ibs| && ibs[ich[k]].next == NextIn(ich, k, Head(free))
    ensures ILinked(ibs, free + Reverse(ich))
  {
    var free', n := free + Reverse(ich), |free|;
    forall k | 0 <= k < |free'|
      ensures 0 <= free'[k] < |ibs| && ibs[free'[k]].next == Link(free', k)
    {
      if k < n {
        assert ibs[free[k]].next == Link(free, k);
      } else {
        var j := |ich| - 1 - (k - n);
        assert free'[k] == ich[j];
        var next := NextIn(ich, j, Head(free));
        assert ibs[ich[j]].next == next;
        if k > n {
          assert free'[k - 1] == ich[j + 1];
        }
      }
    }
  }

  /** Blocks freed one by one, each pointing at the one freed before it. */
  lemma Stacked(links: seq<int>, free: seq<int>, dch: seq<int>)
    requires DLinked(links, free)
    requires forall q {:trigger PrevIn(dch, q, Head(free))} :: 0 <= q < |dch| ==>
               0 <= dch[q] < |links| && links[dch[q]] == PrevIn(dch, q, Head(free))
    ensures DLinked(links, free + dch)
  {
    var free', n := free + dch, |free|;
    forall k | 0 <= k < |free'|
      ensures 0 <= free'[k] < |links| && links[free'[k]] == Link(free', k)
    {
      if k < n {
        assert links[free[k]] == Link(free, k);
      } else {
        var prev := PrevIn(dch, k - n, Head(free));
        assert links[dch[k - n]] == prev;
      }
    }
  }

  /** Every index and data block of file f goes to the free lists, giving the pools ip' and
      dp'. ibs, disk, links and ddir are the disk after the walk. */
  function Truncated(s: Fs, f: int, ibs: seq<Iblk>, disk: Disk, links: seq<int>, ddir: Dir, ip': Pool, dp': Pool): Fs
    requires Sizes(s) && 0 <= f < |s.data|
  {
    s.(ibs := ibs, disk := disk, links := links, ddir := ddir, ip := ip', dp := dp',
       dir := s.dir.(ifree := Head(ip'.free), dfree := Head(dp'.free),
                     files := s.dir.files[f := s.dir.files[f].(ilist := LF_INULL, size := 0)]),
       data := s.data[f := []],
       cbs := s.cbs[f := s.cbs[f].(pos := 0, inum := LF_INULL, dnum := LF_DNULL, byte := LF_BLKSIZ)])
  }

  lemma TruncatedLists(s: Fs, f: int, ibs: seq<Iblk>, disk: Disk, links: seq<int>)
    requires Shape(s) && Lists(s) && 0 <= f < |s.data| && Walked(s, f, ibs, disk, links)
    ensures ILinked(ibs, FreedList(s.ip, f, true)) && DLinked(links, FreedList(s.dp, f, false))
  {
    forall k | 0 <= k < |s.ip.free|
      ensures ibs[s.ip.free[k]].next == Link(s.ip.free, k)
    {
      assert s.ip.own[s.ip.free[k]] == OnFree(k);
      assert s.ibs[s.ip.free[k]].next == Link(s.ip.free, k);
    }
    Spliced(ibs, s.ip.free, s.ip.lists[f]);
    forall k | 0 <= k < |s.dp.free|
      ensures links[s.dp.free[k]] == Link(s.dp.free, k)
    {
      assert s.dp.own[s.dp.free[k]] == OnFree(k);
      assert s.links[s.dp.free[k]] == Link(s.dp.free, k);
    }
    Stacked(links, s.dp.free, s.dp.lists[f]);
  }

  lemma RedirectedWf(dir: Dir, ifree: int, dfree: int, f: int)
    requires WfDir(dir) && 0 <= f < |dir.files| && IsId(ifree) && IsId(dfree)
    ensures WfDir(dir.(ifree := ifree, dfree := dfree, files := dir.files[f := dir.files[f].(ilist := LF_INULL, size := 0)]))
  {
  }

  lemma TruncateShape(s: Fs, f: int, ibs: seq<Iblk>, disk: Disk, links: seq<int>, ddir: Dir, ip': Pool, dp': Pool)
    requires Shape(s) && 0 <= f < |s.data| && |ibs| == |s.ibs| && |disk| == |links| == |s.disk|
    requires Released(s.ip, f, true, ip') && PoolOk(ip', 0, 7 * s.nib)
    requires Released(s.dp, f, false, dp') && PoolOk(dp', s.nib + 1, |s.disk|)
    ensures Shape(Truncated(s, f, ibs, disk, links, ddir, ip', dp'))
  {
    HeadOk(ip', 0, 7 * s.nib);
    HeadOk(dp', s.nib + 1, |s.disk|);
    RedirectedWf(s.dir, Head(ip'.free), Head(dp'.free), f);
    ShapeWith(s, Truncated(s, f, ibs, disk, links, ddir, ip', dp'));
  }

  lemma TruncateKeeps(s: Fs, f: int, ibs: seq<Iblk>, disk: Disk, links: seq<int>, ddir: Dir, ip': Pool, dp': Pool)
    requires Sound(s) && Shape(s) && 0 <= f < |s.data| && Walked(s, f, ibs, disk, links)
    requires !s.cbs[f].ibdirty && !s.cbs[f].dbdirty
    requires Released(s.ip, f, true, ip') && PoolOk(ip', 0, 7 * s.nib)
    requires Released(s.dp, f, false, dp') && PoolOk(dp', s.nib + 1, |s.disk|)
    ensures Sound(Truncated(s, f, ibs, disk, links, ddir, ip', dp'))
  {
    assert SoundSpelledOut(s);
    var s' := Truncated(s, f, ibs, disk, links, ddir, ip', dp');
    TruncateShape(s, f, ibs, disk, links, ddir, ip', dp');
    TruncatedLists(s, f, ibs, disk, links);
    EmptyFile(ibs, disk, s'.cbs[f]);
    StepKeeps(s, s', f);
  }

  // ---- the walk itself

  /** k index blocks of file f have been rewritten and q of its data blocks freed; s0 is where
      the walk began. */
  ghost predicate WalkFacts(s0: Fs, s: Fs, f: int, k: int, q: int)
    requires Sizes(s0) && 0 <= f < |s0.data|
  {
    Shape(s0) &&
    var ich, dch, ifree, dfree := s0.ip.lists[f], s0.dp.lists[f], Head(s0.ip.free), Head(s0.dp.free);
    && s == s0.(ibs := s.ibs, disk := s.disk, links := s.links, ddir := s.ddir)
    && |s.ibs| == |s0.ibs| && |s.disk| == |s.links| == |s0.disk|
    && 0 <= k <= |ich| && 0 <= q <= |dch|
    && (forall j {:trigger NextIn(ich, j, ifree)} :: 0 <= j < k ==> 0 <= ich[j] < |s.ibs| && s.ibs[ich[j]].next == NextIn(ich, j, ifree))
    && (forall j :: k <= j < |ich| ==> 0 <= ich[j] < |s.ibs| && s.ibs[ich[j]] == s0.ibs[ich[j]])
    && (forall j {:trigger PrevIn(dch, j, dfree)} :: 0 <= j < q ==> 0 <= dch[j] < |s.links| && s.links[dch[j]] == PrevIn(dch, j, dfree))
    && (forall b :: b in s0.ip.own && !(s0.ip.own[b].InFile? && s0.ip.own[b].f == f) ==> s.ibs[b] == s0.ibs[b])
    && (forall d :: d in s0.dp.own && !(s0.dp.own[d].InFile? && s0.dp.own[d].f == f) ==>
          s.links[d] == s0.links[d] && s.disk[d] == s0.disk[d])
  }

  ghost predicate Walking(s0: Fs, s: Fs, f: int, k: int, q: int)
    requires Sizes(s0) && 0 <= f < |s0.data|
  {
    && s.nib == s0.nib && |s.disk| == |s.links| == |s0.disk|
    && 0 <= k <= |s0.ip.lists[f]| && 0 <= q <= |s0.dp.lists[f]|
    && forall x {:trigger SoundSpelledOut(x)} :: x == s ==> WalkFacts(s0, x, f, k, q)
  }

  lemma WalkStart(s0: Fs, f: int)
    requires Shape(s0) && 0 <= f < |s0.data|
    ensures Walking(s0, s0, f, 0, 0)
  {
    FileBlocks(s0.ip, f, 0, 7 * s0.nib);
    assert WalkFacts(s0, s0, f, 0, 0);
  }

  lemma WalkData(s0: Fs, s: Fs, f: int, k: int, q: int, s': Fs)
    requires Sizes(s0) && 0 <= f < |s0.data| && Walking(s0, s, f, k, q) && q < |s0.dp.lists[f]|
    requires s' == s.(disk := s'.disk, links := s'.links, ddir := s'.ddir) && |s'.disk| == |s'.links| == |s.disk|
    requires var d := s0.dp.lists[f][q]; 0 <= d < |s.links| && s'.links[d] == PrevIn(s0.dp.lists[f], q, Head(s0.dp.free))
    requires forall e :: s.nib < e < |s.disk| && e != s0.dp.lists[f][q] ==> s'.disk[e] == s.disk[e] && s'.links[e] == s.links[e]
    ensures Walking(s0, s', f, k, q + 1)
  {
    assert SoundSpelledOut(s);
    FileBlocks(s0.dp, f, s0.nib + 1, |s0.disk|);
    assert WalkFacts(s0, s', f, k, q + 1);
  }

  lemma OwnedInside(p: Pool, lo: int, hi: int)
    requires PoolOk(p, lo, hi)
    ensures forall b :: b in p.own ==> lo <= b < hi
  {
  }

  lemma WalkIndex(s0: Fs, s: Fs, f: int, k: int, q: int, ib: Iblk)
    requires Sizes(s0) && 0 <= f < |s0.data| && Walking(s0, s, f, k, q) && k < |s0.ip.lists[f]|
    requires ib.next == NextIn(s0.ip.lists[f], k, Head(s0.ip.free))
    ensures 0 <= s0.ip.lists[f][k] < |s.ibs|
    ensures Walking(s0, s.(ibs := s.ibs[s0.ip.lists[f][k] := ib]), f, k + 1, q)
  {
    hide PoolOk, WfDir;
    assert SoundSpelledOut(s);
    OwnedInside(s0.ip, 0, 7 * s0.nib);
    FileBlocks(s0.dp, f, s0.nib + 1, |s0.disk|);
    FileBlocks(s0.ip, f, 0, 7 * s0.nib);
    assert WalkFacts(s0, s.(ibs := s.ibs[s0.ip.lists[f][k] := ib]), f, k + 1, q);
  }

  /** The next index block to visit is still as it was when the walk began. */
  lemma WalkNext(s0: Fs, s: Fs, f: int, k: int, q: int)
    requires Sizes(s0) && 0 <= f < |s0.data| && Walking(s0, s, f, k, q) && k < |s0.ip.lists[f]|
    ensures 0 <= s0.ip.lists[f][k] < |s.ibs| == |s0.ibs| && s.ibs[s0.ip.lists[f][k]] == s0.ibs[s0.ip.lists[f][k]]
  {
    assert SoundSpelledOut(s);
  }

  lemma WalkEnd(s0: Fs, s: Fs, f: int)
    requires Shape(s0) && 0 <= f < |s0.data| && Walking(s0, s, f, |s0.ip.lists[f]|, |s0.dp.lists[f]|)
    ensures Walked(s0, f, s.ibs, s.disk, s.links)
  {
    assert SoundSpelledOut(s);
  }

  /** The snapshot once the walk is over and file f has nothing left. */
  lemma TruncateWalked(s0: Fs, s: Fs, f: int) returns (s': Fs)
    requires Sound(s0) && 0 <= f < |s0.data| && s0.data[f] != [] && Tight(s0.ip.lists[f], s0.dp.lists[f], |s0.data[f]|)
    requires !s0.cbs[f].ibdirty && !s0.cbs[f].dbdirty
    requires Walking(s0, s, f, |s0.ip.lists[f]|, |s0.dp.lists[f]|)
    ensures Sound(s') && OneFile(s0, s', f) && s'.data[f] == [] && s'.ip.lists[f] == [] && s'.dp.lists[f] == []
    ensures s'.nib == s.nib && s'.ibs == s.ibs && s'.disk == s.disk && s'.links == s.links && s'.ddir == s.ddir
    ensures s'.cbs[f] == s0.cbs[f].(pos := 0, inum := LF_INULL, dnum := LF_DNULL, byte := LF_BLKSIZ)
    ensures s'.dir == s0.dir.(ifree := s0.ip.lists[f][0], dfree := PrevIn(s0.dp.lists[f], |s0.dp.lists[f]|, Head(s0.dp.free)),
                              files := s0.dir.files[f := s0.dir.files[f].(ilist := LF_INULL, size := 0)])
  {
    var ip', dp' := FreedPools(s0, f);
    WalkedKeeps(s0, s, f, ip', dp');
    s' := Truncated(s0, f, s.ibs, s.disk, s.links, s.ddir, ip', dp');
    assert s'.nib == s.nib && |s'.disk| == |s.disk|;
    TightChains(s0.ip.lists[f], s0.dp.lists[f], |s0.data[f]|);
    FreedHeads(s0, f, ip', dp');
    FreedOneFile(s0, s', f, ip', dp');
  }

  lemma TightChains(ich: seq<int>, dch: seq<int>, n: nat)
    requires Tight(ich, dch, n) && n > 0
    ensures ich != [] && dch != []
  {
  }

  /** The first index block, and the last data block, of a truncated file lead the free lists. */
  lemma FreedHeads(s: Fs, f: int, ip': Pool, dp': Pool)
    requires Sizes(s) && 0 <= f < |s.data| && s.ip.lists[f] != [] && s.dp.lists[f] != []
    requires Released(s.ip, f, true, ip') && Released(s.dp, f, false, dp')
    ensures Head(ip'.free) == s.ip.lists[f][0]
    ensures Head(dp'.free) == PrevIn(s.dp.lists[f], |s.dp.lists[f]|, Head(s.dp.free))
  {
  }

  lemma FreedOneFile(s: Fs, s': Fs, f: int, ip': Pool, dp': Pool)
    requires Sizes(s) && 0 <= f < |s.data| && Sizes(s') && s'.nib == s.nib && |s'.disk| == |s.disk|
    requires Released(s.ip, f, true, ip') && Released(s.dp, f, false, dp')
    requires s' == Truncated(s, f, s'.ibs, s'.disk, s'.links, s'.ddir, ip', dp')
    ensures OneFile(s, s', f) && s'.data[f] == [] && s'.ip.lists[f] == [] && s'.dp.lists[f] == []
  {
    hide Released, WfDir;
    ReleasedOne(s.ip, f, true, ip');
    ReleasedOne(s.dp, f, false, dp');
  }

  /** Only the list of file f changes, and no block goes missing. */
  lemma ReleasedOne(p: Pool, f: nat, splice: bool, p': Pool)
    requires f < |p.lists| && Released(p, f, splice, p')
    ensures |p'.lists| == |p.lists| && p'.lists[f] == [] && p'.lists == p.lists[f := p'.lists[f]] && |p'.free| == |p.free| + |p.lists[f]|
  {
  }

  lemma FreedPools(s: Fs, f: int) returns (ip': Pool, dp': Pool)
    requires Sound(s) && 0 <= f < |s.data|
    ensures Released(s.ip, f, true, ip') && PoolOk(ip', 0, 7 * s.nib)
    ensures Released(s.dp, f, false, dp') && PoolOk(dp', s.nib + 1, |s.disk|)
  {
    assert SoundSpelledOut(s);
    ip' := Release(s.ip, f, true, 0, 7 * s.nib);
    dp' := Release(s.dp, f, false, s.nib + 1, |s.disk|);
  }

  lemma WalkedKeeps(s0: Fs, s: Fs, f: int, ip': Pool, dp': Pool)
    requires Sound(s0) && 0 <= f < |s0.data| && !s0.cbs[f].ibdirty && !s0.cbs[f].dbdirty
    requires Walking(s0, s, f, |s0.ip.lists[f]|, |s0.dp.lists[f]|)
    requires Released(s0.ip, f, true, ip') && PoolOk(ip', 0, 7 * s0.nib)
    requires Released(s0.dp, f, false, dp') && PoolOk(dp', s0.nib + 1, |s0.disk|)
    ensures Sound(Truncated(s0, f, s.ibs, s.disk, s.links, s.ddir, ip', dp'))
  {
    assert SoundSpelledOut(s0);
    WalkEnd(s0, s, f);
    TruncateKeeps(s0, f, s.ibs, s.disk, s.links, s.ddir, ip', dp');
  }

  // ---- a new directory entry

  function Added(s: Fs, name: Name, c: Cb): Fs
    requires Sizes(s) && s.dir.nfiles < LF_NUM_DIR_ENT
  {
    s.(dir := s.dir.(nfiles := s.dir.nfiles + 1, files := s.dir.files[s.dir.nfiles := Entry(0, LF_INULL, name)]),
       ip := s.ip.(lists := s.ip.lists + [[]]), dp := s.dp.(lists := s.dp.lists + [[]]),
       data := s.data + [[]], cbs := s.cbs + [c])
  }

  lemma AddKeeps(s: Fs, name: Name, c: Cb)
    requires Sound(s) && s.dir.nfiles < LF_NUM_DIR_ENT
    requires c.inum == LF_INULL && c.dnum == LF_DNULL && !c.ibdirty && !c.dbdirty
    ensures Sound(Added(s, name, c))
  {
    assert SoundSpelledOut(s);
    var s' := Added(s, name, c);
    ResizeKeeps(s.ip, s'.ip.lists, 0, 7 * s.nib);
    ResizeKeeps(s.dp, s'.dp.lists, s.nib + 1, |s.disk|);
    ShapeWith(s, s');
    ListsWith(s, s');
    EmptyFile(s.ibs, s.disk, c);
    forall g | 0 <= g < |s'.data|
      ensures EntryOk(s', g) && FileAt(s', g)
    {
      if g < |s.data| {
        assert FileAt(s, g) && EntryOk(s, g);
      }
    }
    assert Core(s');
  }

  // ---- what the operations need to know

  /** The same files under the same names. */
  ghost predicate SameNames(d: Dir, d': Dir) {
    && d'.nfiles == d.nfiles && |d'.files| == |d.files|
    && forall g :: 0 <= g < |d.files| ==> d'.files[g].name == d.files[g].name
  }

  /** The disk has the same parts, and the directory the same names. */
  ghost predicate Steady(s: Fs, s': Fs) {
    s'.nib == s.nib && |s'.disk| == |s.disk| && SameNames(s.dir, s'.dir)
  }

  /** The index blocks and data blocks that file f has or could get. */
  ghost function Room(s: Fs, f: int): (int, int)
    requires 0 <= f < |s.ip.lists| && f < |s.dp.lists|
  {
    (|s.ip.free| + |s.ip.lists[f]|, |s.dp.free| + |s.dp.lists[f]|)
  }

  /** Only file f differs. */
  ghost predicate OneFile(s: Fs, s': Fs, f: int) {
    && Sizes(s) && 0 <= f < |s.data|
    && Sizes(s') && |s'.data| == |s.data| && Steady(s, s')
    && s'.ip.lists == s.ip.lists[f := s'.ip.lists[f]]
    && s'.dp.lists == s.dp.lists[f := s'.dp.lists[f]]
    && s'.cbs == s.cbs[f := s'.cbs[f]]
    && s'.data == s.data[f := s'.data[f]]
    && Room(s', f) == Room(s, f)
  }

  /** Only file f's blocks and cache differ, and no file's bytes. */
  ghost predicate OnlyFile(s: Fs, s': Fs, f: int) {
    OneFile(s, s', f) && s'.data == s.data
  }

  lemma Known(s: Fs, f: int)
    requires Sound(s) && 0 <= f < |s.data|
    ensures EntryOk(s, f)
    ensures var c := s.cbs[f];
      && (c.inum == LF_INULL ==> !c.ibdirty) && (c.dnum == LF_DNULL ==> !c.dbdirty)
      && (c.inum != LF_INULL ==> 0 <= c.inum < |s.ibs|) && (c.dnum != LF_DNULL ==> s.nib < c.dnum < |s.disk|)
  {
    assert SoundSpelledOut(s);
    assert EntryOk(s, f) && FileAt(s, f);
    FileBlocks(s.ip, f, 0, 7 * s.nib);
    FileBlocks(s.dp, f, s.nib + 1, |s.disk|);
  }

  /** The cached index block is some block of the chain, read as such. */
  lemma CachedPlace(s: Fs, f: int) returns (k: int)
    requires Sound(s) && 0 <= f < |s.data| && s.cbs[f].inum != LF_INULL
    ensures 0 <= k < |s.ip.lists[f]| && s.ip.lists[f][k] == s.cbs[f].inum
    ensures s.cbs[f].iblock == IblkFor(s.ip.lists[f], s.dp.lists[f], k)
  {
    assert SoundSpelledOut(s);
    assert FileAt(s, f);
    k :| 0 <= k < |s.ip.lists[f]| && s.ip.lists[f][k] == s.cbs[f].inum;
    assert s.cbs[f].iblock == IblkFor(s.ip.lists[f], s.dp.lists[f], k);
  }

  /** No block of a file has the null number. */
  lemma BlocksNotNull(s: Fs, f: int)
    requires Sound(s) && 0 <= f < |s.data|
    ensures forall k :: 0 <= k < |s.ip.lists[f]| ==> 0 <= s.ip.lists[f][k] < |s.ibs|
    ensures forall q :: 0 <= q < |s.dp.lists[f]| ==> s.nib < s.dp.lists[f][q] < |s.disk|
  {
    assert SoundSpelledOut(s);
    FileBlocks(s.ip, f, 0, 7 * s.nib);
    FileBlocks(s.dp, f, s.nib + 1, |s.disk|);
  }

  /** With byte c.byte of a file's buffer valid, that byte is the file's byte at the position. */
  lemma ByteAt(s: Fs, f: int)
    requires Sound(s) && 0 <= f < |s.data|
    requires var c := s.cbs[f]; 0 <= c.pos < |s.data[f]| && 0 <= c.byte < LF_BLKSIZ && PosOk(s.dp.lists[f], |s.data[f]|, c)
    ensures s.cbs[f].dblock[s.cbs[f].byte] == s.data[f][s.cbs[f].pos]
  {
    assert SoundSpelledOut(s);
    assert FileAt(s, f);
    var c, q := s.cbs[f], s.cbs[f].pos / 512;
    assert BlockHolds(c.dblock, s.data[f], q);
    assert 512 * q + c.byte == c.pos;
  }

  /** What every operation on file f owes to the other files. */
  lemma InvAfter(s: Fs, s': Fs, f: int)
    requires Inv(s) && Sound(s') && 0 <= f < |s.data| && OneFile(s, s', f)
    requires Settled(s', f)
    ensures Inv(s')
  {
    forall g | 0 <= g < |s'.data|
      ensures Settled(s', g)
    {
      assert Settled(s, g);
    }
  }
}
