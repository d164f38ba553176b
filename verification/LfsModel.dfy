/** What every reachable state of the local file system satisfies: which blocks each file
    owns, what they hold on disk, and what an open file's control block caches. */
module LfsModel {
  import opened DistinctLists
  import opened LfsFormat
  import opened LfsDisk
  import opened BlockPool

  /** The cache and position part of an open file's control block. `byte` is the index of
      the next byte in dblock, or 512 when the position lies outside the cached block. */
  datatype Cb = Cb(pos: int, inum: int, iblock: Iblk, dnum: int, dblock: Sector, byte: int,
                   ibdirty: bool, dbdirty: bool)

  function FreshCb(dblock: Sector, iblock: Iblk): Cb {
    Cb(0, LF_INULL, iblock, LF_DNULL, dblock, LF_BLKSIZ, false, false)
  }

  /** A snapshot. `ibs` are the index blocks as they stand on disk and
      `links` the first word of every sector, read as a block number; `ddir` is the
      directory in sector 0 and `dir` the one in memory. File g of the directory owns index blocks ip.lists[g], data blocks
      dp.lists[g], and holds the bytes data[g]; cbs[g] caches part of it. */
  datatype Fs = Fs(nib: int, ibs: seq<Iblk>, disk: Disk, links: seq<int>, ddir: Dir, dir: Dir, ip: Pool, dp: Pool, data: seq<seq<Byte>>, cbs: seq<Cb>)

  /** The k-th index block of a file with index blocks ich and data blocks dch. */
  function IblkFor(ich: seq<int>, dch: seq<int>, k: int): Iblk {
    Iblk(if 0 <= k + 1 < |ich| then ich[k + 1] else LF_INULL, 8192 * k,
         seq(LF_IBLEN, j requires 0 <= j < LF_IBLEN => if 0 <= 16 * k + j < |dch| then dch[16 * k + j] else LF_DNULL))
  }

  /** buf agrees with the file's bytes that fall in its q-th data block. */
  ghost predicate BlockHolds(buf: Sector, data: seq<Byte>, q: int) {
    forall r :: 0 <= r < 512 && 0 <= 512 * q + r < |data| ==> buf[r] == data[512 * q + r]
  }

  /** The file's chain and data are on disk, except for what c caches dirty. */
  ghost predicate OnDisk(ibs: seq<Iblk>, disk: Disk, ich: seq<int>, dch: seq<int>, data: seq<Byte>, c: Cb) {
    && (forall k :: 0 <= k < |ich| ==> 0 <= ich[k] < |ibs|)
    && (forall k {:trigger IblkFor(ich, dch, k)} :: 0 <= k < |ich| ==>
          (c.ibdirty && ich[k] == c.inum) || ibs[ich[k]] == IblkFor(ich, dch, k))
    && (forall q :: 0 <= q < |dch| ==> 0 <= dch[q] < |disk| && ((c.dbdirty && dch[q] == c.dnum) || BlockHolds(disk[dch[q]], data, q)))
  }

  /** What c caches belongs to the file and is current. */
  ghost predicate Cached(ich: seq<int>, dch: seq<int>, data: seq<Byte>, c: Cb) {
    && (c.inum == LF_INULL || c.inum in ich)
    && (c.dnum == LF_DNULL || c.dnum in dch)
    && (forall k {:trigger IblkFor(ich, dch, k)} :: 0 <= k < |ich| && ich[k] == c.inum ==> c.iblock == IblkFor(ich, dch, k))
    && (forall q :: 0 <= q < |dch| && dch[q] == c.dnum ==> BlockHolds(c.dblock, data, q))
    && (c.inum == LF_INULL ==> !c.ibdirty)
    && (c.dnum == LF_DNULL ==> !c.dbdirty)
  }

  ghost predicate FileOk(ibs: seq<Iblk>, disk: Disk, ich: seq<int>, dch: seq<int>, data: seq<Byte>, c: Cb) {
    && 16 * (|ich| - 1) <= |dch| <= 16 * |ich|
    && OnDisk(ibs, disk, ich, dch, data, c)
    && Cached(ich, dch, data, c)
  }

  /** Just as many blocks as n bytes need. */
  ghost predicate Tight(ich: seq<int>, dch: seq<int>, n: int) {
    |dch| == (n + 511) / 512 && |ich| == (n + 8191) / 8192
  }

  /** The position is inside the file, and a valid byte pointer is where the position says. */
  ghost predicate PosOk(dch: seq<int>, n: int, c: Cb) {
    && 0 <= c.pos <= n
    && 0 <= c.byte <= LF_BLKSIZ
    && (c.byte < LF_BLKSIZ ==> c.pos / 512 < |dch| && c.dnum == dch[c.pos / 512] && c.byte == c.pos % 512)
  }

  ghost predicate ILinked(ibs: seq<Iblk>, free: seq<int>) {
    && (forall k :: 0 <= k < |free| ==> 0 <= free[k] < |ibs|)
    && (forall k {:trigger Link(free, k)} :: 0 <= k < |free| ==> ibs[free[k]].next == Link(free, k))
  }

  ghost predicate DLinked(links: seq<int>, free: seq<int>) {
    && (forall k :: 0 <= k < |free| ==> 0 <= free[k] < |links|)
    && (forall k {:trigger Link(free, k)} :: 0 <= k < |free| ==> links[free[k]] == Link(free, k))
  }

  /** The parts of a snapshot fit together. */
  ghost predicate Sizes(s: Fs) {
    && |s.ip.lists| == |s.dp.lists| == |s.data| == |s.cbs| == s.dir.nfiles <= LF_NUM_DIR_ENT == |s.dir.files|
    && 1 <= s.nib && s.nib + 1 < |s.disk| <= 0x80_0000 && |s.ibs| == 7 * s.nib && |s.links| == |s.disk|
  }

  ghost predicate Shape(s: Fs) {
    && Sizes(s)
    && WfDir(s.dir)
    && PoolOk(s.ip, 0, 7 * s.nib)
    && PoolOk(s.dp, s.nib + 1, |s.disk|)
  }

  ghost predicate Lists(s: Fs) {
    && s.dir.ifree == Head(s.ip.free)
    && s.dir.dfree == Head(s.dp.free)
    && ILinked(s.ibs, s.ip.free)
    && DLinked(s.links, s.dp.free)
  }

  ghost predicate EntryOk(s: Fs, f: int)
    requires Sizes(s) && 0 <= f < |s.data|
  {
    && s.dir.files[f].size == |s.data[f]|
    && s.dir.files[f].ilist == (if s.ip.lists[f] == [] then LF_INULL else s.ip.lists[f][0])
  }

  ghost predicate FileAt(s: Fs, f: int)
    requires Sizes(s) && 0 <= f < |s.data|
  {
    FileOk(s.ibs, s.disk, s.ip.lists[f], s.dp.lists[f], s.data[f], s.cbs[f])
  }

  ghost predicate Files(s: Fs)
    requires Shape(s)
  {
    forall g {:trigger FileAt(s, g)} {:trigger EntryOk(s, g)} :: 0 <= g < |s.data| ==> EntryOk(s, g) && FileAt(s, g)
  }

  /** Holds between and inside the operations. */
  ghost predicate Core(s: Fs) {
    Shape(s) && Lists(s) && Files(s)
  }

  /** Marks the snapshots for which a proof needs Sound spelled out. */
  ghost predicate SoundSpelledOut(s: Fs) { true }

  /** Core(s), stated so that a proof that only passes it on need not look inside. */
  ghost predicate Sound(s: Fs) {
    Sizes(s) && forall x {:trigger SoundSpelledOut(x)} :: x == s ==> Core(x)
  }

  /** Holds for every file between the operations. */
  ghost predicate Settled(s: Fs, g: int)
    requires Sizes(s) && 0 <= g < |s.data|
  {
    && Tight(s.ip.lists[g], s.dp.lists[g], |s.data[g]|)
    && PosOk(s.dp.lists[g], |s.data[g]|, s.cbs[g])
  }

  /** Holds between the operations. */
  ghost predicate Inv(s: Fs) {
    Sound(s) && forall g {:trigger Settled(s, g)} :: 0 <= g < |s.data| ==> Settled(s, g)
  }

  /** The directory on disk: the one in memory, short of files that were never written. */
  ghost predicate DirSynced(s: Fs) {
    && s.ddir.dfree == s.dir.dfree && s.ddir.ifree == s.dir.ifree
    && 0 <= s.ddir.nfiles <= |s.data| <= |s.dir.files| == |s.ddir.files|
    && (forall g :: 0 <= g < s.ddir.nfiles ==> s.ddir.files[g] == s.dir.files[g])
    && (forall g :: s.ddir.nfiles <= g < |s.data| ==> s.data[g] == [])
  }

  // ---- one file: what each step does to its chain, its data and its control block

  /** A change elsewhere on the disk does not touch this file. */
  lemma FileFrame(ibs: seq<Iblk>, disk: Disk, ibs': seq<Iblk>, disk': Disk, ich: seq<int>, dch: seq<int>, data: seq<Byte>, c: Cb)
    requires FileOk(ibs, disk, ich, dch, data, c)
    requires |ibs'| == |ibs| && |disk'| == |disk|
    requires forall k :: 0 <= k < |ich| ==> ibs'[ich[k]] == ibs[ich[k]]
    requires forall q :: 0 <= q < |dch| ==> disk'[dch[q]] == disk[dch[q]]
    ensures FileOk(ibs', disk', ich, dch, data, c)
  {
  }

  lemma EmptyFile(ibs: seq<Iblk>, disk: Disk, c: Cb)
    requires c.inum == LF_INULL && c.dnum == LF_DNULL && !c.ibdirty && !c.dbdirty
    ensures FileOk(ibs, disk, [], [], [], c)
  {
  }

  lemma FlushDataFile(ibs: seq<Iblk>, disk: Disk, ich: seq<int>, dch: seq<int>, data: seq<Byte>, c: Cb)
    requires FileOk(ibs, disk, ich, dch, data, c) && 0 <= c.dnum < |disk|
    ensures FileOk(ibs, disk[c.dnum := c.dblock], ich, dch, data, c.(dbdirty := false))
  {
    forall q | 0 <= q < |dch|
      ensures BlockHolds(disk[c.dnum := c.dblock][dch[q]], data, q)
    {
      assert dch[q] == c.dnum || BlockHolds(disk[dch[q]], data, q);
    }
  }

  lemma FlushIblkFile(ibs: seq<Iblk>, disk: Disk, ich: seq<int>, dch: seq<int>, data: seq<Byte>, c: Cb)
    requires FileOk(ibs, disk, ich, dch, data, c) && 0 <= c.inum < |ibs|
    ensures FileOk(ibs[c.inum := c.iblock], disk, ich, dch, data, c.(ibdirty := false))
  {
  }

  lemma LoadIblkFile(ibs: seq<Iblk>, disk: Disk, ich: seq<int>, dch: seq<int>, data: seq<Byte>, c: Cb, k: nat, dropData: bool)
    requires FileOk(ibs, disk, ich, dch, data, c) && !c.ibdirty && !c.dbdirty
    requires k < |ich| && Distinct(ich)
    requires dropData ==> forall q :: 0 <= q < |dch| ==> dch[q] != LF_DNULL
    ensures ibs[ich[k]] == IblkFor(ich, dch, k)
    ensures FileOk(ibs, disk, ich, dch, data, c.(inum := ich[k], iblock := ibs[ich[k]], dnum := if dropData then LF_DNULL else c.dnum))
  {
    assert ibs[ich[k]] == IblkFor(ich, dch, k);
  }

  lemma LoadDataFile(ibs: seq<Iblk>, disk: Disk, ich: seq<int>, dch: seq<int>, data: seq<Byte>, c: Cb, q: nat)
    requires FileOk(ibs, disk, ich, dch, data, c) && !c.dbdirty
    requires q < |dch| && Distinct(dch)
    ensures 0 <= dch[q] < |disk|
    ensures FileOk(ibs, disk, ich, dch, data, c.(dnum := dch[q], dblock := disk[dch[q]], dbdirty := false))
  {
  }

  /** The first index block of a file that had none, cleared in the cache only. */
  lemma FirstIblkFile(ibs: seq<Iblk>, disk: Disk, data: seq<Byte>, c: Cb, b: int)
    requires FileOk(ibs, disk, [], [], data, c) && 0 <= b < |ibs|
    ensures FileOk(ibs, disk, [b], [], data, c.(inum := b, iblock := ClearIblk(0), ibdirty := true))
  {
    assert IblkFor([b], [], 0).dba == ClearIblk(0).dba;
  }

  /** The chain of a file whose last index block is full, seen one block longer. */
  lemma LongerChain(ich: seq<int>, dch: seq<int>, b: int, k: int)
    requires 0 <= k <= |ich| && |dch| == 16 * |ich|
    ensures k < |ich| - 1 ==> IblkFor(ich + [b], dch, k) == IblkFor(ich, dch, k)
    ensures k == |ich| - 1 ==> IblkFor(ich + [b], dch, k) == IblkFor(ich, dch, k).(next := b)
    ensures k == |ich| ==> IblkFor(ich + [b], dch, k) == ClearIblk(8192 * k)
  {
    assert k < |ich| ==> IblkFor(ich + [b], dch, k).dba == IblkFor(ich, dch, k).dba;
    assert k == |ich| ==> IblkFor(ich + [b], dch, k).dba == ClearIblk(8192 * k).dba;
  }

  /** A full chain grows by one index block: the old last block is rewritten on disk with its
      new link, the new one exists only in the cache. */
  lemma ExtendFile(ibs: seq<Iblk>, disk: Disk, ich: seq<int>, dch: seq<int>, data: seq<Byte>, c: Cb, b: int)
    requires FileOk(ibs, disk, ich, dch, data, c) && !c.ibdirty && !c.dbdirty
    requires ich != [] && |dch| == 16 * |ich| && Distinct(ich) && b !in ich && 0 <= b < |ibs|
    requires c.inum == ich[|ich| - 1]
    requires forall q :: 0 <= q < |dch| ==> dch[q] != LF_DNULL
    ensures 0 <= c.inum < |ibs|
    ensures FileOk(ibs[c.inum := c.iblock.(next := b)], disk, ich + [b], dch, data,
                   c.(inum := b, iblock := ClearIblk(c.iblock.offset + 8192), ibdirty := true, dnum := LF_DNULL))
  {
    var n, ich', ibs' := |ich|, ich + [b], ibs[c.inum := c.iblock.(next := b)];
    assert c.iblock == IblkFor(ich, dch, n - 1);
    LongerChain(ich, dch, b, n);
    forall k | 0 <= k < n
      ensures ibs'[ich'[k]] == IblkFor(ich', dch, k) && ich'[k] != b
    {
      LongerChain(ich, dch, b, k);
      assert ibs[ich[k]] == IblkFor(ich, dch, k);
    }
    assert ich'[n] == b;
  }

  lemma OneMoreBlock(ich: seq<int>, dch: seq<int>, d: int, k: int)
    requires 0 <= k
    ensures k != |dch| / 16 ==> IblkFor(ich, dch + [d], k) == IblkFor(ich, dch, k)
    ensures k == |dch| / 16 ==> IblkFor(ich, dch + [d], k) == IblkFor(ich, dch, k).(dba := IblkFor(ich, dch, k).dba[|dch| % 16 := d])
  {
    var x, y := IblkFor(ich, dch + [d], k), IblkFor(ich, dch, k);
    assert k != |dch| / 16 ==> x.dba == y.dba;
    assert k == |dch| / 16 ==> x.dba == y.dba[|dch| % 16 := d];
  }

  /** The file gets one more data block d, known only to the caches. */
  lemma TakeDataFile(ibs: seq<Iblk>, disk: Disk, ich: seq<int>, dch: seq<int>, data: seq<Byte>, c: Cb, d: int, fill: Sector)
    requires FileOk(ibs, disk, ich, dch, data, c) && !c.dbdirty
    requires |dch| < 16 * |ich| && |data| <= 512 * |dch| && Distinct(ich) && d !in dch && 0 <= d < |disk|
    requires c.inum == ich[|dch| / 16]
    ensures |c.iblock.dba| == LF_IBLEN && c.iblock.dba[|dch| % 16] == LF_DNULL
    ensures FileOk(ibs, disk, ich, dch + [d], data,
                   c.(iblock := c.iblock.(dba := c.iblock.dba[|dch| % 16 := d]), ibdirty := true, dnum := d, dblock := fill))
  {
    var kf, dch' := |dch| / 16, dch + [d];
    assert c.iblock == IblkFor(ich, dch, kf);
    forall k | 0 <= k < |ich|
      ensures k != kf ==> ibs[ich[k]] == IblkFor(ich, dch', k)
      ensures k == kf ==> c.iblock.(dba := c.iblock.dba[|dch| % 16 := d]) == IblkFor(ich, dch', k)
    {
      OneMoreBlock(ich, dch, d, k);
      assert k == kf || ibs[ich[k]] == IblkFor(ich, dch, k);
    }
    assert dch'[|dch|] == d;
  }

  /** The file's bytes after one byte is stored at pos, overwriting or appending. */
  function PutAt(data: seq<Byte>, pos: nat, ch: Byte): seq<Byte>
    requires pos <= |data|
  {
    if pos < |data| then data[pos := ch] else data + [ch]
  }

  /** The control block after lflputc stores a byte through the byte pointer. */
  function PutCb(c: Cb, ch: Byte): Cb
    requires 0 <= c.byte < LF_BLKSIZ
  {
    c.(dblock := c.dblock[c.byte := ch], byte := c.byte + 1, pos := c.pos + 1, dbdirty := true)
  }

  lemma PutByteFile(ibs: seq<Iblk>, disk: Disk, ich: seq<int>, dch: seq<int>, data: seq<Byte>, c: Cb, ch: Byte)
    requires FileOk(ibs, disk, ich, dch, data, c) && Distinct(dch)
    requires PosOk(dch, |data|, c) && c.byte < LF_BLKSIZ
    ensures FileOk(ibs, disk, ich, dch, PutAt(data, c.pos, ch), PutCb(c, ch))
    ensures PosOk(dch, |PutAt(data, c.pos, ch)|, PutCb(c, ch))
  {
    var data', c', qf := PutAt(data, c.pos, ch), PutCb(c, ch), c.pos / 512;
    forall q | 0 <= q < |dch| && q != qf
      ensures dch[q] != c.dnum && BlockHolds(disk[dch[q]], data', q)
    {
      assert BlockHolds(disk[dch[q]], data, q);
    }
    assert BlockHolds(c.dblock, data, qf);
    assert BlockHolds(c'.dblock, data', qf);
  }

  // ---- the whole system from its parts

  /** Shape depends on the pools only through PoolOk and the number of lists. */
  lemma ShapeWith(s: Fs, s': Fs)
    requires Shape(s) && s'.nib == s.nib && |s'.ibs| == |s.ibs| && |s'.disk| == |s'.links| == |s.disk|
    requires |s'.ip.lists| == |s'.dp.lists| == |s'.data| == |s'.cbs| == s'.dir.nfiles
    requires WfDir(s'.dir)
    requires s'.ip == s.ip || PoolOk(s'.ip, 0, 7 * s.nib)
    requires s'.dp == s.dp || PoolOk(s'.dp, s.nib + 1, |s.disk|)
    ensures Shape(s')
  {
  }

  /** s' differs from s, as far as files other than f can see, in blocks they do not own. */
  ghost predicate OthersSame(s: Fs, s': Fs, f: int)
    requires Shape(s) && Shape(s')
  {
    && |s'.data| == |s.data| && |s'.ibs| == |s.ibs| && |s'.disk| == |s.disk|
    && (forall g :: 0 <= g < |s.data| && g != f ==>
          s'.ip.lists[g] == s.ip.lists[g] && s'.dp.lists[g] == s.dp.lists[g] && s'.data[g] == s.data[g] &&
          s'.cbs[g] == s.cbs[g] && s'.dir.files[g] == s.dir.files[g])
    && (forall b :: b in s.ip.own && s.ip.own[b].InFile? && s.ip.own[b].f != f ==> 0 <= b < |s.ibs| && s'.ibs[b] == s.ibs[b])
    && (forall d :: d in s.dp.own && s.dp.own[d].InFile? && s.dp.own[d].f != f ==> 0 <= d < |s.disk| && s'.disk[d] == s.disk[d])
  }

  lemma OtherFile(s: Fs, s': Fs, f: int, g: int)
    requires Shape(s) && Shape(s') && OthersSame(s, s', f) && 0 <= g < |s.data| && g != f
    requires FileAt(s, g)
    ensures FileAt(s', g)
  {
    FileBlocks(s.ip, g, 0, 7 * s.nib);
    FileBlocks(s.dp, g, s.nib + 1, |s.disk|);
    FileFrame(s.ibs, s.disk, s'.ibs, s'.disk, s.ip.lists[g], s.dp.lists[g], s.data[g], s.cbs[g]);
  }

  /** A step on file f that leaves the other files alone keeps the invariant if it keeps the
      shape, the free lists and file f. */
  lemma StepKeeps(s: Fs, s': Fs, f: int)
    requires Core(s) && 0 <= f < |s.data|
    requires Shape(s') && Lists(s') && OthersSame(s, s', f)
    requires EntryOk(s', f) && FileAt(s', f)
    ensures Core(s')
  {
    forall g | 0 <= g < |s.data|
      ensures EntryOk(s', g) && FileAt(s', g)
    {
      if g != f {
        assert FileAt(s, g);
        OtherFile(s, s', f, g);
      }
    }
  }
}
