/** Reading a file from nothing but the disk: directory sector, index chain, data sectors. */
module LfsReload {
  import opened LfsFormat
  import opened LfsDisk
  import opened BlockPool
  import opened LfsModel
  import opened LfsSteps

  /** The snapshot s shows the disk: index blocks decoded, data sectors and their first words,
      the directory. */
  ghost predicate Views(disk: Disk, s: Fs) {
    && 1 <= s.nib && s.nib + 1 < |disk| <= 0x80_0000
    && |s.ibs| == 7 * s.nib && |s.disk| == |s.links| == |disk|
    && (forall b {:trigger DiskIblk(disk, b)} :: 0 <= b < 7 * s.nib ==> s.ibs[b] == DiskIblk(disk, b))
    && (forall d :: s.nib < d < |disk| ==> s.disk[d] == disk[d])
    && (forall d {:trigger LinkWord(disk[d])} :: s.nib < d < |disk| ==> s.links[d] == LinkWord(disk[d]))
    && (forall x {:trigger DecodeDir(x)} :: x == disk[0] ==> s.ddir == DecodeDir(x))
  }

  /** The number of the k-th index block on the chain that starts at `first`. */
  function ChainBlock(disk: Disk, first: int, k: nat): int {
    if k == 0 then first else DiskIblk(disk, ChainBlock(disk, first, k - 1)).next
  }

  /** The number of the q-th data block of the file whose chain starts at `first`. */
  function BlockNumber(disk: Disk, first: int, q: nat): int {
    DiskIblk(disk, ChainBlock(disk, first, q / 16)).dba[q % 16]
  }

  function StoredByte(disk: Disk, first: int, p: nat): Byte {
    SectorAt(disk, BlockNumber(disk, first, p / 512))[p % 512]
  }

  /** The bytes of the g-th file of the directory, as found on disk. */
  function StoredFile(disk: Disk, g: int): seq<Byte>
    requires |disk| > 0 && 0 <= g < LF_NUM_DIR_ENT
  {
    var e := DecodeDir(disk[0]).files[g];
    seq(e.size, p requires 0 <= p < e.size => StoredByte(disk, e.ilist, p))
  }

  lemma {:induction false} ChainFollows(disk: Disk, s: Fs, f: int, k: nat)
    requires Views(disk, s) && Sound(s) && 0 <= f < |s.data| && !s.cbs[f].ibdirty
    requires k < |s.ip.lists[f]|
    ensures ChainBlock(disk, s.ip.lists[f][0], k) == s.ip.lists[f][k]
    ensures DiskIblk(disk, s.ip.lists[f][k]) == IblkFor(s.ip.lists[f], s.dp.lists[f], k)
  {
    var ich, dch := s.ip.lists[f], s.dp.lists[f];
    assert SoundSpelledOut(s);
    assert FileAt(s, f);
    assert s.ibs[ich[k]] == IblkFor(ich, dch, k);
    assert s.ibs[ich[k]] == DiskIblk(disk, ich[k]);
    if k > 0 {
      ChainFollows(disk, s, f, k - 1);
    }
  }

  lemma BlockNumberAt(disk: Disk, s: Fs, f: int, q: nat)
    requires Views(disk, s) && Sound(s) && 0 <= f < |s.data| && !s.cbs[f].ibdirty
    requires q < |s.dp.lists[f]| <= 16 * |s.ip.lists[f]|
    ensures BlockNumber(disk, s.ip.lists[f][0], q) == s.dp.lists[f][q]
  {
    ChainFollows(disk, s, f, q / 16);
  }

  lemma StoredBlock(disk: Disk, s: Fs, f: int, q: nat)
    requires Views(disk, s) && Sound(s) && 0 <= f < |s.data| && !s.cbs[f].dbdirty && q < |s.dp.lists[f]|
    ensures BlockHolds(SectorAt(disk, s.dp.lists[f][q]), s.data[f], q)
  {
    assert SoundSpelledOut(s);
    assert FileAt(s, f);
    FileBlocks(s.dp, f, s.nib + 1, |s.disk|);
    assert BlockHolds(s.disk[s.dp.lists[f][q]], s.data[f], q);
  }

  lemma StoredByteAt(disk: Disk, s: Fs, f: int, p: nat)
    requires Views(disk, s) && Sound(s) && 0 <= f < |s.data| && !s.cbs[f].ibdirty && !s.cbs[f].dbdirty
    requires Tight(s.ip.lists[f], s.dp.lists[f], |s.data[f]|) && p < |s.data[f]|
    ensures s.ip.lists[f] != [] && StoredByte(disk, s.ip.lists[f][0], p) == s.data[f][p]
  {
    BlockNumberAt(disk, s, f, p / 512);
    StoredBlock(disk, s, f, p / 512);
    assert 512 * (p / 512) + p % 512 == p;
  }

  /** A file with clean caches whose directory entry is on disk can be read back from there. */
  lemma ReadsBack(disk: Disk, s: Fs, f: int)
    requires Views(disk, s) && Sound(s) && DirSynced(s) && 0 <= f < s.ddir.nfiles
    requires !s.cbs[f].ibdirty && !s.cbs[f].dbdirty && Tight(s.ip.lists[f], s.dp.lists[f], |s.data[f]|)
    ensures f < LF_NUM_DIR_ENT && StoredFile(disk, f) == s.data[f]
  {
    var e := DecodeDir(disk[0]).files[f];
    assert s.ddir == DecodeDir(disk[0]);
    assert e == s.dir.files[f];
    Known(s, f);
    forall p: nat | p < |s.data[f]|
      ensures StoredByte(disk, e.ilist, p) == s.data[f][p]
    {
      StoredByteAt(disk, s, f, p);
    }
  }
}
