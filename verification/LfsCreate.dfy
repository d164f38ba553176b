/** Formatting a disk, and walking the free lists of a formatted one. */
module LfsCreate {
  import opened LfsFormat
  import opened LfsDisk
  import opened BlockPool
  import opened LfsModel
  import opened LfsSteps
  import opened LfsReload

  /** The sectors that lfiblks index blocks take up. */
  function IbSectors(lfiblks: nat): nat { (lfiblks + (IB_PER_SECTOR - 1)) / IB_PER_SECTOR }

  function EmptyDir(dfree: int): Dir {
    Dir(dfree, 0, 0, seq(LF_NUM_DIR_ENT, e => Entry(0, 0, seq(16, i => 0))))
  }

  function NextIb(i: int, n: int): int { if i + 1 < n then i + 1 else LF_INULL }

  /** The second loop of lfscreate: all index blocks in one free list. */
  method LinkIblks(disk: Disk, lfiblks: int) returns (disk': Disk)
    requires 0 < lfiblks < 0x8000_0000 && lfiblks % 7 == 0 && lfiblks / 7 < |disk|
    ensures |disk'| == |disk| && disk'[0] == disk[0]
    ensures forall b :: 0 <= b < lfiblks ==> DiskIblk(disk', b).next == NextIb(b, lfiblks)
  {
    disk' := disk;
    var iblock := ClearIblk(0);
    var i := 0;
    while i < lfiblks - 1
      invariant 0 <= i <= lfiblks - 1 && |disk'| == |disk| && disk'[0] == disk[0]
      invariant WfIblk(iblock)
      invariant forall b :: 0 <= b < i ==> DiskIblk(disk', b).next == NextIb(b, lfiblks)
    {
      iblock := iblock.(next := i + 1);
      IbPutFrame(disk', lfiblks / 7, i, iblock);
      disk' := WriteIblk(disk', i, iblock);
      i := i + 1;
    }
    iblock := iblock.(next := LF_INULL);
    IbPutFrame(disk', lfiblks / 7, i, iblock);
    disk' := WriteIblk(disk', i, iblock);
  }

  /** A data block on the free list: its link and zeros. */
  function FreeBlock(next: Id): (b: Sector)
    ensures LinkWord(b) == next
  {
    var w := ToWord(next);
    var b: Sector := [ByteOf(w, 0), ByteOf(w, 1), ByteOf(w, 2), ByteOf(w, 3)] + seq(508, i => 0);
    WordRoundTrip(b, 0, w);
    b
  }

  /** The third loop of lfscreate: all data blocks in one free list. */
  method LinkDblks(disk: Disk, ghost nib: int, first: int, dblks: int) returns (disk': Disk)
    requires 0 < nib && first == nib + 1 && 0 < dblks && first + dblks == |disk| <= 0x80_0000
    ensures |disk'| == |disk| && disk'[0] == disk[0]
    ensures forall b :: 0 <= b < 7 * nib ==> DiskIblk(disk', b) == DiskIblk(disk, b)
    ensures forall d :: first <= d < |disk| ==> LinkWord(disk'[d]) == NextIb(d, |disk|)
  {
    disk' := disk;
    var dbindex := first;
    var i := 0;
    while i < dblks - 1
      invariant 0 <= i <= dblks - 1 && dbindex == first + i && |disk'| == |disk| && disk'[0] == disk[0]
      invariant forall b :: 0 <= b < 7 * nib ==> DiskIblk(disk', b) == DiskIblk(disk, b)
      invariant forall d :: first <= d < dbindex ==> LinkWord(disk'[d]) == NextIb(d, |disk|)
    {
      WriteFrame(disk', nib, dbindex, FreeBlock(dbindex + 1));
      disk' := disk'[dbindex := FreeBlock(dbindex + 1)];
      dbindex := dbindex + 1;
      i := i + 1;
    }
    WriteFrame(disk', nib, dbindex, FreeBlock(LF_DNULL));
    disk' := disk'[dbindex := FreeBlock(LF_DNULL)];
  }

  /** The snapshot of a freshly formatted disk. */
  ghost function Formatted(disk: Disk, nib: int): Fs
    requires 1 <= nib && nib + 1 < |disk|
  {
    Fs(nib, seq(7 * nib, b => DiskIblk(disk, b)), disk, seq(|disk|, d requires 0 <= d < |disk| => LinkWord(disk[d])),
       EmptyDir(nib + 1), EmptyDir(nib + 1), AllFree(0, 7 * nib), AllFree(nib + 1, |disk|), [], [])
  }

  lemma AllFreeLink(lo: int, hi: int, k: int)
    requires lo <= hi && 0 <= k < hi - lo
    ensures var free := AllFree(lo, hi).free; lo <= free[k] < hi && Link(free, k) == NextIb(free[k], hi)
  {
    var free := AllFree(lo, hi).free;
    assert free[k] == Place(hi, k);
    if k > 0 {
      assert free[k - 1] == Place(hi, k - 1);
    }
  }

  lemma AllILinked(ibs: seq<Iblk>, n: int)
    requires 0 < n == |ibs| && forall b :: 0 <= b < n ==> ibs[b].next == NextIb(b, n)
    ensures ILinked(ibs, AllFree(0, n).free) && Head(AllFree(0, n).free) == 0
  {
    var free := AllFree(0, n).free;
    forall k | 0 <= k < |free|
      ensures 0 <= free[k] < |ibs| && ibs[free[k]].next == Link(free, k)
    {
      AllFreeLink(0, n, k);
    }
    assert free[n - 1] == Place(n, n - 1);
  }

  lemma AllDLinked(links: seq<int>, lo: int)
    requires 0 <= lo < |links| && forall d :: lo <= d < |links| ==> links[d] == NextIb(d, |links|)
    ensures DLinked(links, AllFree(lo, |links|).free) && Head(AllFree(lo, |links|).free) == lo
  {
    var free, n := AllFree(lo, |links|).free, |links| - lo;
    forall k | 0 <= k < |free|
      ensures 0 <= free[k] < |links| && links[free[k]] == Link(free, k)
    {
      AllFreeLink(lo, |links|, k);
    }
    assert free[n - 1] == Place(|links|, n - 1);
  }

  lemma FormattedViews(disk: Disk, nib: int)
    requires 1 <= nib && nib + 1 < |disk| <= 0x80_0000 && DecodeDir(disk[0]) == EmptyDir(nib + 1)
    ensures Views(disk, Formatted(disk, nib))
  {
  }

  lemma FormattedOk(disk: Disk, nib: int)
    requires 1 <= nib && nib + 1 < |disk| <= 0x80_0000
    requires forall b :: 0 <= b < 7 * nib ==> DiskIblk(disk, b).next == NextIb(b, 7 * nib)
    requires forall d :: nib + 1 <= d < |disk| ==> LinkWord(disk[d]) == NextIb(d, |disk|)
    ensures Inv(Formatted(disk, nib)) && DirSynced(Formatted(disk, nib))
  {
    var s := Formatted(disk, nib);
    EmptySound(s);
  }

  lemma EmptyShape(s: Fs)
    requires Sizes(s) && s.dir == EmptyDir(s.nib + 1)
    requires s.ip == AllFree(0, 7 * s.nib) && s.dp == AllFree(s.nib + 1, |s.disk|)
    ensures Shape(s)
  {
    hide PoolOk, AllFree;
    AllFreeOk(0, 7 * s.nib);
    AllFreeOk(s.nib + 1, |s.disk|);
  }

  lemma EmptyLists(s: Fs)
    requires Sizes(s) && s.dir == EmptyDir(s.nib + 1)
    requires s.ip == AllFree(0, 7 * s.nib) && s.dp == AllFree(s.nib + 1, |s.disk|)
    requires forall b :: 0 <= b < 7 * s.nib ==> s.ibs[b].next == NextIb(b, 7 * s.nib)
    requires forall d :: s.nib + 1 <= d < |s.disk| ==> s.links[d] == NextIb(d, |s.disk|)
    ensures Lists(s)
  {
    AllILinked(s.ibs, 7 * s.nib);
    AllDLinked(s.links, s.nib + 1);
  }

  lemma EmptySound(s: Fs)
    requires Sizes(s) && s.dir == EmptyDir(s.nib + 1) && s.data == []
    requires s.ip == AllFree(0, 7 * s.nib) && s.dp == AllFree(s.nib + 1, |s.disk|)
    requires forall b :: 0 <= b < 7 * s.nib ==> s.ibs[b].next == NextIb(b, 7 * s.nib)
    requires forall d :: s.nib + 1 <= d < |s.disk| ==> s.links[d] == NextIb(d, |s.disk|)
    ensures Sound(s)
  {
    EmptyShape(s);
    EmptyLists(s);
    assert Core(s);
  }

  /** lfscreate on a disk of |disk| sectors. */
  method Lfscreate(disk: Disk, lfiblks: nat) returns (ok: bool, disk': Disk, ghost s: Fs)
    requires 3 <= |disk| <= 0x80_0000 && 1 <= lfiblks
    ensures ok <==> IbSectors(lfiblks) <= |disk| / 2
    ensures !ok ==> disk' == disk
    ensures ok ==> Views(disk', s) && Inv(s) && s.dir == s.ddir && DirSynced(s) && s.data == [] && s.nib == IbSectors(lfiblks)
  {
    var sectors := |disk|;
    var ibsectors := IbSectors(lfiblks);
    disk' := disk;
    if ibsectors > sectors / 2 {
      ok := false;
      s := Formatted(disk, 1);
      return;
    }
    var n := ibsectors * IB_PER_SECTOR;
    var dbindex := ibsectors + 1;
    var dir := EmptyDir(dbindex);
    DirRoundTrip(dir);
    disk' := disk'[LF_AREA_DIR := EncodeDir(dir)];
    disk' := LinkIblks(disk', n);
    disk' := LinkDblks(disk', ibsectors, dbindex, sectors - ibsectors - 1);
    s := Formatted(disk', ibsectors);
    FormattedViews(disk', ibsectors);
    FormattedOk(disk', ibsectors);
    ok := true;
  }

  lemma HeadNotNull(p: Pool, k: int, lo: int, hi: int)
    requires PoolOk(p, lo, hi) && 0 <= lo && 0 < k <= |p.free|
    ensures Head(p.free[..k]) >= lo
  {
    assert p.own[p.free[k - 1]] == OnFree(k - 1);
  }

  /** Only an empty free list has the null head. */
  lemma NullHead(p: Pool, k: int, lo: int, hi: int)
    requires PoolOk(p, lo, hi) && 0 <= lo && 0 <= k <= |p.free| && Head(p.free[..k]) == -1
    ensures k == 0
  {
    if k > 0 {
      HeadNotNull(p, k, lo, hi);
    }
  }

  /** The first walk of lfsckfmt. */
  method CountIblks(disk: Disk, ghost s: Fs, head: Id) returns (lfiblks: nat)
    requires Views(disk, s) && Sound(s) && head == s.dir.ifree
    ensures lfiblks == |s.ip.free|
  {
    assert SoundSpelledOut(s);
    lfiblks := 0;
    var nextib: Id := head;
    ghost var k := |s.ip.free|;
    HeadOk(s.ip, 0, 7 * s.nib);
    while nextib != LF_INULL
      invariant 0 <= k == |s.ip.free| - lfiblks && nextib == Head(s.ip.free[..k])
      decreases k
    {
      assert s.ip.free[k - 1] in s.ip.own;
      assert s.ibs[s.ip.free[k - 1]].next == Link(s.ip.free, k - 1);
      lfiblks := lfiblks + 1;
      var iblock := ReadIblk(disk, nextib);
      assert s.ibs[nextib] == DiskIblk(disk, nextib);
      nextib := iblock.next;
      k := k - 1;
    }
    NullHead(s.ip, k, 0, 7 * s.nib);
  }

  /** The second walk of lfsckfmt. */
  method CountDblks(disk: Disk, ghost s: Fs, head: Id) returns (dblks: nat)
    requires Views(disk, s) && Sound(s) && head == s.dir.dfree
    ensures dblks == |s.dp.free|
  {
    assert SoundSpelledOut(s);
    dblks := 0;
    var nextdb: Id := head;
    ghost var k := |s.dp.free|;
    while nextdb != LF_DNULL
      invariant 0 <= k == |s.dp.free| - dblks && nextdb == Head(s.dp.free[..k])
      decreases k
    {
      assert s.dp.free[k - 1] in s.dp.own;
      assert s.links[s.dp.free[k - 1]] == Link(s.dp.free, k - 1);
      dblks := dblks + 1;
      assert s.links[nextdb] == LinkWord(disk[nextdb]);
      nextdb := LinkWord(disk[nextdb]);
      k := k - 1;
    }
    NullHead(s.dp, k, s.nib + 1, |s.disk|);
  }

  /** lfsckfmt: the two walks end, and count every free block once. */
  method Lfsckfmt(disk: Disk, ghost s: Fs) returns (lfiblks: nat, dblks: nat)
    requires Views(disk, s) && Sound(s) && s.dir.ifree == s.ddir.ifree && s.dir.dfree == s.ddir.dfree
    ensures lfiblks == |s.ip.free| && dblks == |s.dp.free|
  {
    var dir := DecodeDir(disk[LF_AREA_DIR]);
    lfiblks := CountIblks(disk, s, dir.ifree);
    dblks := CountDblks(disk, s, dir.dfree);
  }
}
