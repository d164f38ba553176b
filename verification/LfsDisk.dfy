/** The disk as an array of sectors: sector 0 is the directory, the next ones hold index
    blocks seven to a sector, the rest are data blocks. */
module LfsDisk {
  import opened LfsFormat

  type Disk = seq<Sector>

  function Fill(c: Byte): Sector { seq(512, i => c) }

  /** lfibclear. */
  function ClearIblk(offset: int): Iblk { Iblk(LF_INULL, offset, seq(LF_IBLEN, j => LF_DNULL)) }

  function Ib2Sect(ib: int): int { ib / IB_PER_SECTOR + LF_AREA_IB }

  function Ib2Disp(ib: int): int { ib % IB_PER_SECTOR * IB_SIZE }

  function SectorAt(disk: Disk, d: int): Sector {
    if 0 <= d < |disk| then disk[d] else Fill(0)
  }

  /** Index block b as it stands on disk (lfibget). */
  function DiskIblk(disk: Disk, b: int): Iblk {
    DecodeIblk(SectorAt(disk, Ib2Sect(b)), Ib2Disp(b))
  }

  /** The link word of a data block that is on the free list. */
  function LinkWord(sec: Sector): int { ToId(WordAt(sec, 0)) }

  /** A sector with one index block replaced. */
  function Patch(sec: Sector, at: nat, ib: Iblk): Sector
    requires WfIblk(ib) && at + IB_SIZE <= 512
  {
    sec[..at] + EncodeIblk(ib) + sec[at + IB_SIZE..]
  }

  /** The disk after lfibput. */
  function IbPut(disk: Disk, b: int, ib: Iblk): (r: Disk)
    requires 0 <= b && Ib2Sect(b) < |disk| && WfIblk(ib)
    ensures |r| == |disk|
  {
    disk[Ib2Sect(b) := Patch(disk[Ib2Sect(b)], Ib2Disp(b), ib)]
  }

  lemma PatchOther(sec: Sector, at: nat, ib: Iblk, at2: nat)
    requires WfIblk(ib) && at + IB_SIZE <= 512 && at2 + IB_SIZE <= 512
    requires at2 + IB_SIZE <= at || at + IB_SIZE <= at2
    ensures DecodeIblk(Patch(sec, at, ib), at2) == DecodeIblk(sec, at2)
  {
    var p := Patch(sec, at, ib);
    forall i | at2 <= i < at2 + IB_SIZE
      ensures p[i] == sec[i]
    {
    }
    SameBytesSameIblk(p, sec, at2);
  }

  lemma SameBytesSameIblk(p: Sector, q: Sector, at: nat)
    requires at + IB_SIZE <= 512
    requires forall i :: at <= i < at + IB_SIZE ==> p[i] == q[i]
    ensures DecodeIblk(p, at) == DecodeIblk(q, at)
  {
    forall j | 0 <= j < LF_IBLEN
      ensures WordAt(p, at + 8 + 4 * j) == WordAt(q, at + 8 + 4 * j)
    {
    }
    assert DecodeIblk(p, at).dba == DecodeIblk(q, at).dba;
  }

  /** lfibput on block b changes what lfibget returns for b only, and no other sector. */
  lemma IbPutGet(disk: Disk, b: int, ib: Iblk, b2: int)
    requires 0 <= b && Ib2Sect(b) < |disk| && WfIblk(ib) && 0 <= b2
    ensures DiskIblk(IbPut(disk, b, ib), b2) == if b2 == b then ib else DiskIblk(disk, b2)
  {
    var sec, at := disk[Ib2Sect(b)], Ib2Disp(b);
    if b2 == b {
      assert Patch(sec, at, ib)[at..at + IB_SIZE] == EncodeIblk(ib);
      IblkRoundTrip(Patch(sec, at, ib), at, ib);
    } else if Ib2Sect(b2) == Ib2Sect(b) {
      PatchOther(sec, at, ib, Ib2Disp(b2));
    }
  }

  lemma IbPutFrame(disk: Disk, nib: int, b: int, ib: Iblk)
    requires 0 < nib < |disk| && 0 <= b < 7 * nib && WfIblk(ib)
    ensures forall b2 :: 0 <= b2 < 7 * nib && b2 != b ==> DiskIblk(IbPut(disk, b, ib), b2) == DiskIblk(disk, b2)
    ensures DiskIblk(IbPut(disk, b, ib), b) == ib
    ensures forall d :: d > nib || d == 0 ==> SectorAt(IbPut(disk, b, ib), d) == SectorAt(disk, d)
  {
    forall b2 | 0 <= b2 < 7 * nib
      ensures DiskIblk(IbPut(disk, b, ib), b2) == if b2 == b then ib else DiskIblk(disk, b2)
    {
      IbPutGet(disk, b, ib, b2);
    }
  }

  /** Writing a data sector or the directory leaves every index block as it was. */
  lemma WriteFrame(disk: Disk, nib: int, d: int, x: Sector)
    requires 0 < nib < |disk| && 0 <= d < |disk| && (d == 0 || d > nib)
    ensures forall b :: 0 <= b < 7 * nib ==> DiskIblk(disk[d := x], b) == DiskIblk(disk, b)
    ensures forall e :: e != d ==> SectorAt(disk[d := x], e) == SectorAt(disk, e)
    ensures SectorAt(disk[d := x], d) == x
  {
  }

  lemma DecodeShift(p: seq<Byte>, q: Sector, at: nat)
    requires |p| == IB_SIZE && at + IB_SIZE <= 512
    requires forall k :: 0 <= k < IB_SIZE ==> p[k] == q[at + k]
    ensures DecodeIblk(p, 0) == DecodeIblk(q, at)
  {
    forall j | 0 <= j < LF_IBLEN
      ensures WordAt(p, 8 + 4 * j) == WordAt(q, at + 8 + 4 * j)
    {
      assert p[8 + 4 * j] == q[at + (8 + 4 * j)] && p[8 + 4 * j + 1] == q[at + (8 + 4 * j + 1)];
      assert p[8 + 4 * j + 2] == q[at + (8 + 4 * j + 2)] && p[8 + 4 * j + 3] == q[at + (8 + 4 * j + 3)];
    }
    assert DecodeIblk(p, 0).dba == DecodeIblk(q, at).dba;
  }

  /** lfibget: read the sector, copy 72 bytes out of it. */
  method ReadIblk(disk: Disk, inum: int) returns (ib: Iblk)
    requires 0 <= inum && Ib2Sect(inum) < |disk|
    ensures ib == DiskIblk(disk, inum)
  {
    var dbuff := disk[Ib2Sect(inum)];
    var ibuff := new Byte[IB_SIZE](_ => 0);
    var from, i := Ib2Disp(inum), 0;
    while i < IB_SIZE
      invariant 0 <= i <= IB_SIZE
      invariant forall k :: 0 <= k < i ==> ibuff[k] == dbuff[from + k]
    {
      ibuff[i] := dbuff[from + i];
      i := i + 1;
    }
    ib := DecodeIblk(ibuff[..], 0);
    DecodeShift(ibuff[..], dbuff, from);
  }

  /** lfibput: read the sector, copy 72 bytes into it, write it back. */
  method WriteIblk(disk: Disk, inum: int, ib: Iblk) returns (disk': Disk)
    requires 0 <= inum && Ib2Sect(inum) < |disk| && WfIblk(ib)
    ensures disk' == IbPut(disk, inum, ib)
  {
    var sector, to := Ib2Sect(inum), Ib2Disp(inum);
    var from := EncodeIblk(ib);
    var dbuff := new Byte[LF_BLKSIZ](k requires 0 <= k < LF_BLKSIZ => disk[sector][k]);
    var i := 0;
    while i < IB_SIZE
      invariant 0 <= i <= IB_SIZE
      invariant forall k :: 0 <= k < i ==> dbuff[to + k] == from[k]
      invariant forall k :: 0 <= k < LF_BLKSIZ && (k < to || to + i <= k) ==> dbuff[k] == disk[sector][k]
    {
      dbuff[to + i] := from[i];
      i := i + 1;
    }
    assert dbuff[..] == Patch(disk[sector], to, ib);
    disk' := disk[sector := dbuff[..]];
  }
}
