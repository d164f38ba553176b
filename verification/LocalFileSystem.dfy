/** The local file system as it runs: an in-memory directory, a table of open-file control
    blocks with one cached index block and one cached data block each, and the disk. */
module LocalFileSystem {
  import opened LfsFormat
  import opened LfsDisk
  import opened BlockPool
  import opened LfsModel
  import opened LfsReload
  import opened LfsSteps
  import opened LfsSpec

  const DFILL: Byte := 43  // '+'
  const LF_CTL_TRUNC := 2

  /** struct lflcblk. `byte` indexes dblock; 512 stands for the address just beyond it. */
  class OpenFile {
    var used: bool
    var dirent: int
    var mode: int
    var pos: int
    var name: Name
    var inum: int
    var iblock: Iblk
    var dnum: int
    var dblock: Sector
    var byte: int
    var ibdirty: bool
    var dbdirty: bool

    ghost function View(): Cb
      reads this
    {
      Cb(pos, inum, iblock, dnum, dblock, byte, ibdirty, dbdirty)
    }

    ghost function Where(): Handle
      reads this
    {
      if used && 0 <= dirent && 0 <= pos then At(dirent, pos) else Closed
    }

    /** lflinit. */
    constructor ()
      ensures !used
    {
      used, dirent, mode, pos, name := false, 0, 0, 0, seq(16, i => 0);
      inum, iblock, dnum, dblock, byte := LF_INULL, ClearIblk(0), 0, Fill(0), LF_BLKSIZ;
      ibdirty, dbdirty := false, false;
    }
  }

  /** Marks the states for which a proof needs Valid spelled out. */
  ghost predicate ValidSpelledOut(u: int) { true }

  class FileSystem {
    var disk: Disk
    var dir: Dir
    var dirpresent: bool
    var dirdirty: bool
    const tab: seq<OpenFile>
    /** What the disk holds and which blocks and bytes are whose. */
    ghost var st: Fs
    /** The device that has each file open, or -1. */
    ghost var opener: seq<int>

    /** lfsinit, over a disk that s describes, with control blocks from lflinit. */
    constructor (disk: Disk, nlfl: nat, ghost s: Fs)
      requires Views(disk, s) && Inv(s) && s.dir == s.ddir && DirSynced(s)
      requires forall g :: 0 <= g < |s.cbs| ==> !s.cbs[g].ibdirty && !s.cbs[g].dbdirty
      ensures Valid() && !dirpresent && this.disk == disk && st == s
      ensures |tab| == nlfl && View() == Abs(s.data, seq(nlfl, i => Closed))
      ensures fresh(tab)
    {
      var t: seq<OpenFile> := [];
      while |t| < nlfl
        invariant |t| <= nlfl && fresh(t)
        invariant forall i :: 0 <= i < |t| ==> !t[i].used
        invariant forall i, j :: 0 <= i < |t| && 0 <= j < |t| && i != j ==> t[i] != t[j]
      {
        var c := new OpenFile();
        t := t + [c];
      }
      this.disk := disk;
      dir := Dir(0, 0, 0, seq(LF_NUM_DIR_ENT, i => Entry(0, 0, seq(16, j => 0))));
      dirpresent, dirdirty := false, false;
      tab := t;
      st := s;
      opener := seq(|s.data|, g => -1);
      new;
      assert Consistent();
    }

    ghost predicate Mounted()
      reads this
    {
      dirpresent && Views(disk, st) && st.dir == dir
    }

    /** Which control block has file g open, and that st shows what it caches. */
    ghost predicate Slots()
      reads this, tab
    {
      && (forall i, j :: 0 <= i < |tab| && 0 <= j < |tab| && i != j ==> tab[i] != tab[j])
      && |opener| == |st.data| == |st.cbs|
      && (forall i :: 0 <= i < |tab| && tab[i].used ==>
            0 <= tab[i].dirent < |opener| && opener[tab[i].dirent] == i && st.cbs[tab[i].dirent] == tab[i].View() && tab[i].name[0] == 0)
      && (forall g :: 0 <= g < |opener| && opener[g] != -1 ==>
            0 <= opener[g] < |tab| && tab[opener[g]].used && tab[opener[g]].dirent == g)
      && (forall g :: 0 <= g < |opener| && opener[g] == -1 ==> !st.cbs[g].ibdirty && !st.cbs[g].dbdirty)
    }

    /** Inside an operation on the open file c. */
    ghost predicate Busy(c: OpenFile)
      reads this, tab
    {
      c in tab && c.used && Mounted() && Slots() && Sound(st) && 0 <= c.dirent < |st.data| == |opener| && st.cbs[c.dirent] == c.View()
    }

    /** Changing only c's cache fields keeps the table, once st shows the change. */
    twostate lemma SlotsStep(c: OpenFile)
      requires old(Slots()) && c in tab && old(c.used) && c.used && c.dirent == old(c.dirent) && c.name == old(c.name) && opener == old(opener)
      requires |st.data| == |old(st).data| && st.cbs == old(st).cbs[c.dirent := c.View()]
      requires forall i :: 0 <= i < |tab| && tab[i] != c ==> unchanged(tab[i])
      ensures Slots()
    {
    }

    /** The next time a file is closed, at the latest, the directory on disk gets all entries. */
    ghost predicate Told()
      reads this
    {
      dirdirty || st.ddir.nfiles == st.dir.nfiles
    }

    // ---- the disk device

    method WriteData(d: int, x: Sector)
      requires Views(disk, st) && st.nib < d < |disk|
      modifies this`disk, this`st
      ensures Views(disk, st) && disk == old(disk)[d := x] && st == WroteData(old(st), d, x)
    {
      ViewsAfterWrite(disk, st, d, x);
      disk := disk[d := x];
      st := WroteData(st, d, x);
    }

    /** Write the in-memory directory to its sector. */
    method WriteDir()
      requires Views(disk, st) && WfDir(dir)
      modifies this`disk, this`st
      ensures Views(disk, st) && |disk| == |old(disk)| && st == old(st).(ddir := dir)
    {
      ViewsAfterDir(disk, st, dir);
      disk := disk[LF_AREA_DIR := EncodeDir(dir)];
      st := st.(ddir := dir);
    }

    method Lfibget(inum: int) returns (ib: Iblk)
      requires Views(disk, st) && 0 <= inum < 7 * st.nib
      ensures ib == st.ibs[inum]
    {
      ib := ReadIblk(disk, inum);
    }

    method Lfibput(inum: int, ib: Iblk)
      requires Views(disk, st) && 0 <= inum < 7 * st.nib && WfIblk(ib)
      modifies this`disk, this`st
      ensures Views(disk, st) && |disk| == |old(disk)| && st == old(st).(ibs := old(st).ibs[inum := ib])
    {
      ViewsAfterIbPut(disk, st, inum, ib);
      disk := WriteIblk(disk, inum, ib);
      st := st.(ibs := st.ibs[inum := ib]);
    }

    // ---- the free lists

    /** lfiballoc. No free index block is a panic. */
    method Lfiballoc() returns (ibnum: int, panic: bool)
      requires Mounted() && Sound(st)
      modifies this`disk, this`dir, this`dirdirty, this`st
      ensures panic <==> old(st).ip.free == []
      ensures !panic ==>
        && ibnum == Head(old(st).ip.free) && 0 <= ibnum < |old(st).ibs| && dirpresent && !dirdirty
        && dir == old(dir).(ifree := old(st).ibs[ibnum].next) && WfDir(dir)
        && Views(disk, st) && st == old(st).(ddir := dir)
    {
      ibnum := dir.ifree;
      assert SoundSpelledOut(st);
      HeadOk(st.ip, 0, 7 * st.nib);
      if ibnum == LF_INULL {
        return ibnum, true;
      }
      var iblock := Lfibget(ibnum);
      PoppedILinks(st.ibs, st.ip.free);
      TakeFree(st.ip, 0, 7 * st.nib);
      dir := dir.(ifree := iblock.next);
      WriteDir();
      dirdirty := false;
      panic := false;
    }

    /** lfdballoc. The caller's buffer is overwritten with '+'; no free block is a panic. */
    method Lfdballoc() returns (dnum: int, dbuff: Sector, panic: bool)
      requires Mounted() && Sound(st)
      modifies this`disk, this`dir, this`dirdirty, this`st
      ensures panic <==> old(st).dp.free == []
      ensures !panic ==>
        && dnum == Head(old(st).dp.free) && st.nib < dnum < |old(st).links| && 0 <= dnum && dbuff == Fill(DFILL) && dirpresent && !dirdirty
        && dir == old(dir).(dfree := old(st).links[dnum]) && WfDir(dir)
        && Views(disk, st) && st == old(st).(ddir := dir)
    {
      dnum := dir.dfree;
      assert SoundSpelledOut(st);
      HeadOk(st.dp, st.nib + 1, |disk|);
      if dnum == LF_DNULL {
        return dnum, Fill(DFILL), true;
      }
      dbuff := disk[dnum];
      PoppedDLinks(st.links, st.dp.free);
      TakeFree(st.dp, st.nib + 1, |disk|);
      assert st.links[dnum] == LinkWord(disk[dnum]);
      dir := dir.(dfree := LinkWord(dbuff));
      WriteDir();
      dirdirty := false;
      dbuff := Fill(DFILL);
      panic := false;
    }

    /** lfdbfree: link block dnum in front of the free list. What follows the link word in the
        sector is whatever the stack buffer held. */
    method Lfdbfree(dnum: int)
      requires dirpresent && Views(disk, st) && WfDir(dir) && st.nib < dnum < |disk|
      modifies this`disk, this`dir, this`st
      ensures dirpresent && Views(disk, st) && dir == old(dir).(dfree := dnum)
      ensures |disk| == |old(disk)| && |st.disk| == |old(st).disk| && |st.links| == |old(st).links|
      ensures st == old(st).(disk := st.disk, links := st.links, ddir := dir)
      ensures st.links[dnum] == old(dir).dfree
      ensures forall d :: st.nib < d < |disk| && d != dnum ==> st.disk[d] == old(st).disk[d] && st.links[d] == old(st).links[d]
    {
      var buf: Sector :| true;
      var w := ToWord(dir.dfree);
      buf := [ByteOf(w, 0), ByteOf(w, 1), ByteOf(w, 2), ByteOf(w, 3)] + buf[4..];
      WordRoundTrip(buf, 0, w);
      dir := dir.(dfree := dnum);
      WriteData(dnum, buf);
      WriteDir();
    }

    // ---- write-back

    /** lfflush: directory, data block, index block, each only if it changed. */
    method Lfflush(c: OpenFile)
      requires c in tab && (c.used ==> Busy(c))
      modifies this`disk, this`dirdirty, this`st, c`ibdirty, c`dbdirty
      ensures !old(c.used) ==> st == old(st) && disk == old(disk) && dirdirty == old(dirdirty) && c.ibdirty == old(c.ibdirty) && c.dbdirty == old(c.dbdirty)
      ensures old(c.used) ==> Busy(c) && OnlyFile(old(st), st, c.dirent) && st.ip == old(st).ip && st.dp == old(st).dp && st.dir == old(st).dir
      ensures old(c.used) ==> !c.ibdirty && !c.dbdirty && !dirdirty
      ensures old(c.used) && (!old(dirdirty) ==> DirSynced(old(st))) ==> DirSynced(st)
      ensures old(c.used) ==> Told() == old(Told())
    {
      hide Slots;
      if !c.used {
        return;
      }
      if dirdirty {
        WriteDirectory(c);
      }
      if c.dbdirty {
        FlushDataBlock(c);
      }
      if c.ibdirty {
        FlushIndexBlock(c);
      }
    }

    method WriteDirectory(c: OpenFile)
      requires Busy(c)
      modifies this`disk, this`dirdirty, this`st
      ensures Busy(c) && st == old(st).(ddir := old(st).dir) && !dirdirty && DirSynced(st)
    {
      assert SoundSpelledOut(st);
      DirWriteKeeps(st, dir);
      WriteDir();
      dirdirty := false;
    }

    method FlushDataBlock(c: OpenFile)
      requires Busy(c) && c.dbdirty
      modifies this`disk, this`st, c`dbdirty
      ensures Busy(c) && !c.dbdirty && st == old(st).(disk := st.disk, links := st.links, cbs := old(st).cbs[c.dirent := c.View()]) && |st.disk| == |old(st).disk|
    {
      ghost var f := c.dirent;
      Known(st, f);
      FlushDataKeeps(st, f);
      WriteData(c.dnum, c.dblock);
      c.dbdirty := false;
      st := FlushedData(old(st), f);
      SlotsStep(c);
    }

    method FlushIndexBlock(c: OpenFile)
      requires Busy(c) && c.ibdirty
      modifies this`disk, this`st, c`ibdirty
      ensures Busy(c) && !c.ibdirty && st == old(st).(ibs := st.ibs, cbs := old(st).cbs[c.dirent := c.View()])
    {
      ghost var f := c.dirent;
      Known(st, f);
      FlushIblkKeeps(st, f);
      Lfibput(c.inum, c.iblock);
      c.ibdirty := false;
      st := FlushedIblk(old(st), f);
      SlotsStep(c);
    }

    // ---- lfsetup, one step at a time

    /** Load index block ibnum, the k-th of the chain; moving along the chain also invalidates
        the data block. */
    method LoadIndex(c: OpenFile, ibnum: int, ghost k: int, invalidate: bool)
      requires Busy(c) && !c.ibdirty && !c.dbdirty
      requires 0 <= k < |st.ip.lists[c.dirent]| && ibnum == st.ip.lists[c.dirent][k]
      modifies this`st, c`inum, c`iblock, c`dnum
      ensures Busy(c) && st == old(st).(cbs := old(st).cbs[c.dirent := c.View()])
      ensures c.inum == ibnum && c.iblock == IblkFor(st.ip.lists[c.dirent], st.dp.lists[c.dirent], k)
      ensures c.dnum == if invalidate then LF_DNULL else old(c.dnum)
    {
      ghost var f := c.dirent;
      LoadIblkKeeps(st, f, k, invalidate);
      c.iblock := Lfibget(ibnum);
      c.inum := ibnum;
      if invalidate {
        c.dnum := LF_DNULL;
      }
      st := st.(cbs := st.cbs[f := c.View()]);
      SlotsStep(c);
    }

    /** A first index block for an empty file. The directory entry is not yet on disk. */
    method NewFirst(c: OpenFile) returns (panic: bool)
      requires Busy(c) && c.inum == LF_INULL && st.ip.lists[c.dirent] == []
      modifies this`disk, this`dir, this`dirdirty, this`st, c`inum, c`iblock, c`ibdirty
      ensures panic <==> old(st).ip.free == []
      ensures !panic ==> Busy(c) && OnlyFile(old(st), st, c.dirent) && st.dp == old(st).dp
      ensures !panic ==> st.ip.lists[c.dirent] == [c.inum] && c.inum == Head(old(st).ip.free) && c.iblock == ClearIblk(0)
      ensures !panic ==> c.ibdirty && c.dbdirty == old(c.dbdirty)
      ensures !panic ==> Told()
    {
      hide Slots, OneFile, OnlyFile, Take;
      ghost var f := c.dirent;
      if st.ip.free != [] {
        TakeFirstKeeps(st, f);
        TookFirstOnly(st, f);
      }
      var ibnum;
      ibnum, panic := Lfiballoc();
      if panic {
        return;
      }
      c.iblock := ClearIblk(0);
      dir := dir.(files := dir.files[c.dirent := dir.files[c.dirent].(ilist := ibnum)]);
      c.ibdirty := true;
      c.inum := ibnum;
      st := TookFirst(old(st), f);
      SlotsStep(c);
    }

    /** One more index block at the end of a full chain. */
    method ExtendChain(c: OpenFile) returns (panic: bool)
      requires Busy(c) && !c.ibdirty && !c.dbdirty
      requires var ich := st.ip.lists[c.dirent]; ich != [] && c.inum == ich[|ich| - 1] && |st.dp.lists[c.dirent]| == 16 * |ich|
      modifies this`disk, this`dir, this`dirdirty, this`st, c`inum, c`iblock, c`ibdirty, c`dnum
      ensures panic <==> old(st).ip.free == []
      ensures !panic ==> Busy(c) && OnlyFile(old(st), st, c.dirent) && st.dp == old(st).dp
      ensures !panic ==> st.ip.lists[c.dirent] == old(st).ip.lists[c.dirent] + [c.inum] && c.inum == Head(old(st).ip.free)
      ensures !panic ==> c.ibdirty && c.iblock == ClearIblk(old(c.iblock).offset + 8192)
      ensures !panic ==> !dirdirty && DirSynced(st)
      ensures !panic ==> Told()
    {
      hide Slots, OneFile, OnlyFile, DirSynced, Take, WfDir, SameNames, Views;
      ghost var f := c.dirent;
      if st.ip.free != [] {
        ExtendKeeps(st, f);
        ExtendedOnly(st, f);
      }
      var ibnum;
      ibnum, panic := Lfiballoc();
      if panic {
        return;
      }
      c.iblock := c.iblock.(next := ibnum);
      Lfibput(c.inum, c.iblock);
      c.inum := ibnum;
      var newoffset := c.iblock.offset + 8192;
      c.iblock := ClearIblk(newoffset);
      c.ibdirty := true;
      c.dnum := LF_DNULL;
      ghost var s1 := st;
      st := Extended(old(st), f);
      ViewsSame(disk, s1, st);
      SlotsStep(c);
    }

    /** Read data block dnum, the q-th of the file, unless it is the one in the buffer. */
    method LoadBlock(c: OpenFile, dnum: int, ghost q: int)
      requires Busy(c) && !c.dbdirty
      requires 0 <= q < |st.dp.lists[c.dirent]| && dnum == st.dp.lists[c.dirent][q]
      modifies this`st, c`dnum, c`dblock, c`dbdirty
      ensures Busy(c) && st == old(st).(cbs := old(st).cbs[c.dirent := c.View()])
      ensures c.dnum == dnum && !c.dbdirty
    {
      ghost var f := c.dirent;
      LoadDataKeeps(st, f, q);
      if dnum != c.dnum {
        c.dblock := disk[dnum];
        c.dbdirty := false;
        c.dnum := dnum;
        st := st.(cbs := st.cbs[f := c.View()]);
        SlotsStep(c);
      }
    }

    /** A fresh data block, filled with '+', at entry dindex of the cached index block. */
    method NewBlock(c: OpenFile, dindex: int) returns (panic: bool)
      requires Busy(c) && !c.dbdirty && |c.iblock.dba| == LF_IBLEN
      requires var ich, dch := st.ip.lists[c.dirent], st.dp.lists[c.dirent];
        |dch| < 16 * |ich| && |st.data[c.dirent]| <= 512 * |dch| && c.inum == ich[|dch| / 16] && dindex == |dch| % 16
      modifies this`disk, this`dir, this`dirdirty, this`st, c`dnum, c`dblock, c`iblock, c`ibdirty
      ensures panic <==> old(st).dp.free == []
      ensures !panic ==> Busy(c) && OnlyFile(old(st), st, c.dirent) && st.ip == old(st).ip
      ensures !panic ==> st.dp.lists[c.dirent] == old(st).dp.lists[c.dirent] + [c.dnum]
      ensures !panic ==> c.dblock == Fill(DFILL) && !dirdirty && DirSynced(st)
      ensures !panic ==> Told()
    {
      hide Slots;
      ghost var f := c.dirent;
      if st.dp.free != [] {
        TakeDataKeeps(st, f, DFILL);
      }
      var dnum, dbuff;
      dnum, dbuff, panic := Lfdballoc();
      if panic {
        return;
      }
      c.dblock := dbuff;
      c.iblock := c.iblock.(dba := c.iblock.dba[dindex := dnum]);
      c.ibdirty := true;
      c.dnum := dnum;
      st := TookData(old(st), f, DFILL);
      SlotsStep(c);
    }

    // ---- lfsetup

    /** c caches index block k of its file's chain, which lies at or before the position. */
    ghost predicate AtBlock(c: OpenFile, k: int)
      requires Busy(c)
      reads this, tab
    {
      var ich, dch := st.ip.lists[c.dirent], st.dp.lists[c.dirent];
      && 0 <= k < |ich| && c.inum == ich[k] && c.iblock == IblkFor(ich, dch, k)
      && 0 <= 8192 * k <= c.pos
      && !c.dbdirty && (c.ibdirty ==> c.pos / 8192 == k)
    }

    /** Room for the position: its file's blocks reach just up to it, or it lies inside them. */
    ghost predicate InReach(c: OpenFile)
      requires Busy(c)
      reads this, tab
    {
      var f := c.dirent;
      && 0 <= c.pos <= |st.data[f]|
      && Tight(st.ip.lists[f], st.dp.lists[f], |st.data[f]|)
    }

    /** Have some index block of the file in memory, at or before the position. */
    method StartChain(c: OpenFile) returns (panic: bool, ghost k: int)
      requires Busy(c) && InReach(c) && !c.ibdirty && !c.dbdirty
      modifies this`disk, this`dir, this`dirdirty, this`st, c`inum, c`iblock, c`ibdirty, c`dnum
      ensures panic <==> old(st).ip.lists[c.dirent] == [] && old(st).ip.free == []
      ensures !panic ==> Busy(c) && OnlyFile(old(st), st, c.dirent) && st.dp == old(st).dp && AtBlock(c, k)
      ensures !panic && c.ibdirty ==> old(st).ip.lists[c.dirent] == [] && |st.ip.lists[c.dirent]| == 1
      ensures !panic && !c.ibdirty ==> st == old(st).(cbs := st.cbs) && dirdirty == old(dirdirty)
      ensures !panic ==> Told() == (old(Told()) || |st.ip.lists[c.dirent]| != |old(st).ip.lists[c.dirent]|)
    {
      hide Slots;
      ghost var f := c.dirent;
      panic, k := false, 0;
      Known(st, f);
      var ibnum := c.inum;
      if ibnum == LF_INULL {
        ibnum := dir.files[c.dirent].ilist;
        if ibnum == LF_INULL {
          BlocksNotNull(st, f);
          panic := NewFirst(c);
          if panic {
            return;
          }
          EmptyIblk(c.inum);
        } else {
          LoadIndex(c, ibnum, 0, false);
        }
      } else {
        k := CachedPlace(st, f);
        if c.pos < c.iblock.offset {
          ibnum := dir.files[c.dirent].ilist;
          LoadIndex(c, ibnum, 0, false);
          k := 0;
        }
      }
    }

    /** Move to the index block after the k-th, or add one. */
    method NextIndex(c: OpenFile, ghost k: int) returns (panic: bool)
      requires Busy(c) && AtBlock(c, k) && 8192 * (k + 1) <= c.pos && !c.ibdirty
      requires c.pos <= |st.data[c.dirent]| <= 512 * |st.dp.lists[c.dirent]| <= 8192 * |st.ip.lists[c.dirent]|
      requires !dirdirty ==> DirSynced(st)
      modifies this`disk, this`dir, this`dirdirty, this`st, c`inum, c`iblock, c`ibdirty, c`dnum
      ensures panic <==> k + 1 == |old(st).ip.lists[c.dirent]| && old(st).ip.free == []
      ensures !panic ==> Busy(c) && OnlyFile(old(st), st, c.dirent) && st.dp == old(st).dp && AtBlock(c, k + 1)
      ensures !panic ==> if k + 1 < |old(st).ip.lists[c.dirent]| then st.ip == old(st).ip && !c.ibdirty
                         else |st.ip.lists[c.dirent]| == k + 2 && old(st).ip.free != []
      ensures !panic ==> (!dirdirty ==> DirSynced(st))
      ensures !panic ==> Told() == (old(Told()) || |st.ip.lists[c.dirent]| != |old(st).ip.lists[c.dirent]|)
    {
      hide Slots;
      panic := false;
      var ibnum := c.iblock.next;
      BlocksNotNull(st, c.dirent);
      if ibnum == LF_INULL {
        panic := ExtendChain(c);
        if panic {
          return;
        }
        FreshIblk(st.ip.lists[c.dirent], st.dp.lists[c.dirent]);
      } else {
        LoadIndex(c, ibnum, k + 1, true);
      }
    }

    /** Follow the chain, extending it if it ends, until it covers the position. */
    method WalkChain(c: OpenFile, ghost k0: int) returns (panic: bool, ghost k: int)
      requires Busy(c) && AtBlock(c, k0)
      requires c.pos < 8192 || c.pos <= |st.data[c.dirent]| <= 512 * |st.dp.lists[c.dirent]| <= 8192 * |st.ip.lists[c.dirent]|
      requires !dirdirty && !c.ibdirty ==> DirSynced(st)
      modifies this`disk, this`dir, this`dirdirty, this`st, c`inum, c`iblock, c`ibdirty, c`dnum
      ensures panic <==> c.pos / 8192 == |old(st).ip.lists[c.dirent]| && old(st).ip.free == []
      ensures !panic ==> Busy(c) && OnlyFile(old(st), st, c.dirent) && st.dp == old(st).dp && AtBlock(c, k) && k == c.pos / 8192
      ensures !panic ==> |st.ip.lists[c.dirent]| == Reaching(|old(st).ip.lists[c.dirent]|, k)
      ensures !panic ==> (!dirdirty && !old(c.ibdirty) ==> DirSynced(st))
      ensures !panic ==> Told() == (old(Told()) || |st.ip.lists[c.dirent]| != |old(st).ip.lists[c.dirent]|)
    {
      hide Slots, Views, Mounted;
      ghost var f := c.dirent;
      panic, k := false, k0;
      while c.pos / 8192 * 8192 > c.iblock.offset
        invariant Busy(c) && OnlyFile(old(st), st, f) && st.dp == old(st).dp && AtBlock(c, k)
        invariant c.dirent == f && c.pos == old(c.pos) && k0 <= k
        invariant st.ip == old(st).ip ==> c.ibdirty == old(c.ibdirty)
        invariant st.ip == old(st).ip || (|st.ip.lists[f]| == k + 1 && k == |old(st).ip.lists[f]| == c.pos / 8192 && old(st).ip.free != [])
        invariant !dirdirty && !old(c.ibdirty) ==> DirSynced(st)
        invariant Told() == (old(Told()) || |st.ip.lists[f]| != |old(st).ip.lists[f]|)
        decreases c.pos / 8192 - k
      {
        panic := NextIndex(c, k);
        if panic {
          return;
        }
        k := k + 1;
      }
    }

    /** Have the data block of the position in the buffer, and point at the position's byte. */
    method SetBlock(c: OpenFile, ghost k: int) returns (panic: bool)
      requires Busy(c) && AtBlock(c, k) && k == c.pos / 8192
      requires 0 <= c.pos / 512 <= |st.dp.lists[c.dirent]| && |st.data[c.dirent]| <= 512 * |st.dp.lists[c.dirent]|
      modifies this`disk, this`dir, this`dirdirty, this`st, c`dnum, c`dblock, c`iblock, c`ibdirty, c`dbdirty, c`byte
      ensures panic <==> c.pos / 512 == |old(st).dp.lists[c.dirent]| && old(st).dp.free == []
      ensures !panic ==> Busy(c) && OnlyFile(old(st), st, c.dirent) && st.ip == old(st).ip
      ensures !panic ==> |st.dp.lists[c.dirent]| == if c.pos / 512 == |old(st).dp.lists[c.dirent]| then c.pos / 512 + 1 else |old(st).dp.lists[c.dirent]|
      ensures !panic ==> c.dnum == st.dp.lists[c.dirent][c.pos / 512] && c.byte == c.pos % 512
      ensures !panic ==> if c.pos / 512 == |old(st).dp.lists[c.dirent]| then !dirdirty && DirSynced(st)
                         else dirdirty == old(dirdirty) && st == old(st).(cbs := st.cbs)
      ensures !panic ==> Told() == (old(Told()) || |st.dp.lists[c.dirent]| != |old(st).dp.lists[c.dirent]|)
    {
      hide Slots;
      ghost var f := c.dirent;
      var dindex := c.pos % 8192 / 512;
      BlocksNotNull(st, f);
      assert 16 * k + dindex == c.pos / 512;
      panic := false;
      var dnum := c.iblock.dba[dindex];
      if dnum == LF_DNULL {
        panic := NewBlock(c, dindex);
        if panic {
          return;
        }
      } else {
        LoadBlock(c, dnum, c.pos / 512);
      }
      PointAt(c, c.pos % 512);
    }

    /** Set the byte pointer. */
    method PointAt(c: OpenFile, byte: int)
      requires Busy(c)
      modifies this`st, c`byte
      ensures Busy(c) && st == old(st).(cbs := old(st).cbs[c.dirent := c.View()]) && c.byte == byte
    {
      PointerKeeps(st, c.dirent, c.pos, byte);
      c.byte := byte;
      st := st.(cbs := st.cbs[c.dirent := c.View()]);
      SlotsStep(c);
    }

    /** Have the index block that covers the position in memory. */
    method SetIndex(c: OpenFile) returns (panic: bool, ghost k: int)
      requires Busy(c) && InReach(c) && !c.ibdirty && !c.dbdirty && (!dirdirty ==> DirSynced(st))
      modifies this`disk, this`dir, this`dirdirty, this`st, c`inum, c`iblock, c`ibdirty, c`dnum
      ensures panic <==> c.pos / 8192 == |old(st).ip.lists[c.dirent]| && old(st).ip.free == []
      ensures !panic ==> Busy(c) && OnlyFile(old(st), st, c.dirent) && st.dp == old(st).dp && AtBlock(c, k) && k == c.pos / 8192
      ensures !panic ==> |st.ip.lists[c.dirent]| == Reaching(|old(st).ip.lists[c.dirent]|, c.pos / 8192)
      ensures !panic && old(st).ip.lists[c.dirent] != [] ==> (!dirdirty ==> DirSynced(st))
      ensures !panic ==> 0 <= c.pos / 512 <= |st.dp.lists[c.dirent]| && |st.data[c.dirent]| <= 512 * |st.dp.lists[c.dirent]|
      ensures !panic ==> Told() == (old(Told()) || |st.ip.lists[c.dirent]| != |old(st).ip.lists[c.dirent]|)
    {
      hide Slots, Views;
      TightBounds(|st.data[c.dirent]|);
      panic, k := StartChain(c);
      if panic {
        return;
      }
      panic, k := WalkChain(c, k);
    }

    /** lfsetup: set the index block and the data block for the current position. */
    method Lfsetup(c: OpenFile) returns (panic: bool)
      requires Busy(c) && InReach(c) && (!dirdirty ==> DirSynced(st))
      modifies this`disk, this`dir, this`dirdirty, this`st
      modifies c`inum, c`iblock, c`dnum, c`dblock, c`byte, c`ibdirty, c`dbdirty
      ensures panic <==> NoRoom(old(st), c.dirent, c.pos)
      ensures !panic ==> Busy(c) && OnlyFile(old(st), st, c.dirent) && (!dirdirty ==> DirSynced(st))
      ensures !panic ==> |st.dp.lists[c.dirent]| == Reaching(|old(st).dp.lists[c.dirent]|, c.pos / 512)
      ensures !panic ==> |st.ip.lists[c.dirent]| == Reaching(|old(st).ip.lists[c.dirent]|, c.pos / 8192)
      ensures !panic ==> c.dnum == st.dp.lists[c.dirent][c.pos / 512] && c.byte == c.pos % 512
      ensures !panic ==> Told() == (old(Told()) || |st.ip.lists[c.dirent]| != |old(st).ip.lists[c.dirent]| || |st.dp.lists[c.dirent]| != |old(st).dp.lists[c.dirent]|)
    {
      hide Slots, Views, Sound;
      if c.ibdirty || c.dbdirty {
        Lfflush(c);
      }
      ghost var k;
      panic, k := SetIndex(c);
      if panic {
        return;
      }
      panic := SetBlock(c, k);
    }

    // ---- the operations

    /** Holds between the operations. */
    ghost predicate Consistent()
      reads this, tab
    {
      && Views(disk, st) && Slots() && Inv(st)
      && (if dirpresent then st.dir == dir
          else st.dir == st.ddir && !dirdirty && forall i :: 0 <= i < |tab| ==> !tab[i].used)
      && (!dirdirty ==> DirSynced(st))
    }

    /** Consistent(), stated so that a proof that only passes it on need not look inside. */
    ghost predicate Valid()
      reads this, tab
    {
      forall u {:trigger ValidSpelledOut(u)} :: u == 0 ==> Consistent()
    }

    ghost function Open(): seq<Handle>
      reads tab
    {
      seq(|tab|, i requires 0 <= i < |tab| reads tab => tab[i].Where())
    }

    /** The abstract file system. */
    ghost function View(): Abs
      reads this, tab
    {
      Abs(st.data, Open())
    }

    /** Every used device shows as an open handle with its file and position. */
    lemma ViewOk()
      requires Valid()
      ensures AbsOk(View()) && Sizes(st) && |st.data| == |st.cbs|
      ensures forall i :: 0 <= i < |tab| ==> (tab[i].used <==> View().open[i].At?)
      ensures forall i :: 0 <= i < |tab| && tab[i].used ==>
                0 <= tab[i].dirent < |st.data| && 0 <= tab[i].pos && View().open[i] == At(tab[i].dirent, tab[i].pos)
    {
      assert ValidSpelledOut(0);
      forall i | 0 <= i < |tab| && tab[i].used
        ensures tab[i].Where().At? && tab[i].pos <= |st.data[tab[i].dirent]|
      {
        assert Settled(st, tab[i].dirent);
      }
    }

    /** What Valid says about one open device. */
    lemma OpenAt(m: int)
      requires Valid() && 0 <= m < |tab| && tab[m].used
      ensures Busy(tab[m]) && Settled(st, tab[m].dirent) && EntryOk(st, tab[m].dirent) && (!dirdirty ==> DirSynced(st))
      ensures forall i :: 0 <= i < |tab| && i != m ==> tab[i] != tab[m]
    {
      assert ValidSpelledOut(0);
      assert Settled(st, tab[m].dirent);
      Known(st, tab[m].dirent);
    }

    /** An operation that worked on the file open at device m, and left it settled, is done. */
    twostate lemma Finished(m: int)
      requires old(Valid()) && 0 <= m < |tab| && old(tab[m].used) && old(opener) == opener
      requires Busy(tab[m]) && tab[m].dirent == old(tab[m].dirent)
      requires forall i :: 0 <= i < |tab| && i != m ==> unchanged(tab[i])
      requires OneFile(old(st), st, tab[m].dirent) && Settled(st, tab[m].dirent)
      requires !dirdirty ==> DirSynced(st)
      ensures Valid() && View() == Abs(st.data, old(Open())[m := At(tab[m].dirent, tab[m].pos)])
    {
      assert ValidSpelledOut(0);
      InvAfter(old(st), st, tab[m].dirent);
      assert Consistent();
      assert Open() == old(Open())[m := At(tab[m].dirent, tab[m].pos)];
    }

    /** The first thing lflgetc and lflputc do: set up the block if the byte pointer is beyond it. */
    method Ready(c: OpenFile) returns (panic: bool)
      requires Busy(c) && Settled(st, c.dirent) && (!dirdirty ==> DirSynced(st))
      modifies this`disk, this`dir, this`dirdirty, this`st
      modifies c`inum, c`iblock, c`dnum, c`dblock, c`byte, c`ibdirty, c`dbdirty
      ensures panic <==> NoRoom(old(st), c.dirent, c.pos)
      ensures !panic ==> Busy(c) && OnlyFile(old(st), st, c.dirent) && (!dirdirty ==> DirSynced(st))
      ensures !panic ==> |st.dp.lists[c.dirent]| == Reaching(|old(st).dp.lists[c.dirent]|, c.pos / 512)
      ensures !panic ==> |st.ip.lists[c.dirent]| == Reaching(|old(st).ip.lists[c.dirent]|, c.pos / 8192)
      ensures !panic ==> c.byte < LF_BLKSIZ && PosOk(st.dp.lists[c.dirent], |st.data[c.dirent]|, c.View())
      ensures !panic ==> Told() == (old(Told()) || |st.ip.lists[c.dirent]| != |old(st).ip.lists[c.dirent]| || |st.dp.lists[c.dirent]| != |old(st).dp.lists[c.dirent]|)
    {
      panic := false;
      TightBounds(|st.data[c.dirent]|);
      if c.byte >= LF_BLKSIZ {
        panic := Lfsetup(c);
      }
    }

    /** The byte at the byte pointer, moving on. */
    method FetchByte(c: OpenFile) returns (ch: Byte)
      requires Busy(c) && PosOk(st.dp.lists[c.dirent], |st.data[c.dirent]|, c.View()) && c.pos < |st.data[c.dirent]| && c.byte < LF_BLKSIZ
      modifies this`st, c`byte, c`pos
      ensures Busy(c) && st == old(st).(cbs := old(st).cbs[c.dirent := c.View()])
      ensures ch == st.data[c.dirent][old(c.pos)] && c.pos == old(c.pos) + 1
      ensures PosOk(st.dp.lists[c.dirent], |st.data[c.dirent]|, c.View())
    {
      hide Slots;
      ghost var f := c.dirent;
      ByteAt(st, f);
      ch := c.dblock[c.byte];
      c.byte := c.byte + 1;
      c.pos := c.pos + 1;
      PointerKeeps(st, f, c.pos, c.byte);
      st := st.(cbs := st.cbs[f := c.View()]);
      SlotsStep(c);
    }

    /** The directory's and the buffer's side of storing one byte. */
    method StoreByte(c: OpenFile, ch: Byte)
      requires Busy(c) && PosOk(st.dp.lists[c.dirent], |st.data[c.dirent]|, c.View()) && c.byte < LF_BLKSIZ
      requires |st.data[c.dirent]| <= 512 * |st.dp.lists[c.dirent]|
      modifies this`dir, this`dirdirty, this`st, c`dblock, c`byte, c`pos, c`dbdirty
      ensures Busy(c) && OneFile(old(st), st, c.dirent) && st.ip == old(st).ip && st.dp == old(st).dp && st.ddir == old(st).ddir
      ensures st.data[c.dirent] == PutAt(old(st).data[c.dirent], old(c.pos), ch) && c.pos == old(c.pos) + 1
      ensures PosOk(st.dp.lists[c.dirent], |st.data[c.dirent]|, c.View())
      ensures if old(c.pos) >= |old(st).data[c.dirent]| then dirdirty else dirdirty == old(dirdirty) && st.dir == old(st).dir
    {
      hide Slots, OneFile, Tight, SameNames, Views, PutByte;
      ghost var f := c.dirent;
      Known(st, f);
      PutByteKeeps(st, f, ch);
      PutByteOnly(st, f, ch);
      if c.pos >= dir.files[c.dirent].size {
        dir := dir.(files := dir.files[c.dirent := dir.files[c.dirent].(size := dir.files[c.dirent].size + 1)]);
        dirdirty := true;
      }
      c.dblock := c.dblock[c.byte := ch];
      c.byte := c.byte + 1;
      c.pos := c.pos + 1;
      c.dbdirty := true;
      st := PutByte(st, f, ch);
      ViewsSame(disk, old(st), st);
      SlotsStep(c);
    }

    /** lflgetc, with a byte to get. */
    method GetOpen(m: int) returns (ch: Byte)
      requires Valid() && 0 <= m < |tab| && tab[m].used && 0 <= tab[m].dirent < |st.data| && 0 <= tab[m].pos < |st.data[tab[m].dirent]|
      modifies this, tab[m]
      ensures Valid() && Steady(old(st), st)
      ensures View() == Abs(old(st).data, old(Open())[m := At(old(tab[m].dirent), old(tab[m].pos) + 1)])
      ensures ch == old(st).data[old(tab[m].dirent)][old(tab[m].pos)]
      ensures Told() == old(Told())
    {
      hide Slots;
      var c := tab[m];
      OpenAt(m);
      TightBounds(|st.data[c.dirent]|);
      var panic := Ready(c);
      ch := FetchByte(c);
      Finished(m);
    }

    /** lflgetc. */
    method Lflgetc(m: int) returns (r: Ret)
      requires Valid() && 0 <= m < |tab|
      modifies this, tab[m]
      ensures Valid() && Steady(old(st), st)
      ensures old(AbsOk(View())) && (View(), r) == StepGetc(old(View()), m)
      ensures Told() == old(Told())
    {
      var c := tab[m];
      ViewOk();
      if !c.used {
        return SysErr;
      }
      OpenAt(m);
      if c.pos >= dir.files[c.dirent].size {
        return Eof;
      }
      var ch := GetOpen(m);
      r := Char(ch);
    }

    /** n more bytes at device m's position are more than the disk has room for. */
    ghost predicate OverFull(m: int, n: int)
      requires 0 <= m < |tab|
      reads this, tab
    {
      var f := tab[m].dirent;
      Sizes(st) && 0 <= f < |st.data| && OutOfSpace(Room(st, f), Max(|st.data[f]|, tab[m].pos + n))
    }

    /** lflputc, the file being open. */
    method PutOpen(m: int, ch: Byte) returns (panic: bool)
      requires Valid() && 0 <= m < |tab| && tab[m].used && 0 <= tab[m].dirent < |st.data| && 0 <= tab[m].pos <= |st.data[tab[m].dirent]|
      modifies this, tab[m]
      ensures panic <==> old(OverFull(m, 1))
      ensures !panic ==> Valid() && Steady(old(st), st) && SameRoom(old(st), st, old(tab[m].dirent))
      ensures !panic ==> View() == Abs(st.data, old(Open())[m := At(old(tab[m].dirent), old(tab[m].pos) + 1)])
      ensures !panic ==> var f := old(tab[m].dirent); st.data == old(st).data[f := PutAt(old(st).data[f], old(tab[m].pos), ch)]
      ensures !panic ==> Told() == (old(Told()) || old(tab[m].pos) == |old(st).data[old(tab[m].dirent)]|)
    {
      hide Slots, OneFile, OnlyFile, OutOfSpace, Tight, Mounted, Room, SameNames, Views;
      var c := tab[m];
      ghost var f := c.dirent;
      OpenAt(m);
      NoRoomIsOutOfSpace(st, f, c.pos);
      panic := Ready(c);
      if panic {
        return;
      }
      label L:
      Reached(old(st), st, f, c.pos);
      StoreByte(c, ch);
      Stored(old(st), old@L(st), st, f, old(c.pos));
      Finished(m);
    }

    /** lflputc. It panics when the position needs a block and none is free. */
    method Lflputc(m: int, ch: Byte) returns (r: Ret)
      requires Valid() && 0 <= m < |tab|
      modifies this, tab[m]
      ensures r == Panic <==> old(tab[m].used && OverFull(m, 1))
      ensures r != Panic ==> Valid() && Steady(old(st), st)
      ensures r != Panic && old(tab[m].used) ==> SameRoom(old(st), st, old(tab[m].dirent))
      ensures r != Panic ==> old(AbsOk(View())) && (View(), r) == StepPutc(old(View()), m, ch)
      ensures r != Panic ==> Told() == (old(Told()) || Resized(old(st).data, st.data))
    {
      var c := tab[m];
      ViewOk();
      if !c.used {
        return SysErr;
      }
      OpenAt(m);
      if c.pos > dir.files[c.dirent].size {
        return SysErr;
      }
      PutAtIsOverwrite(st.data[c.dirent], c.pos, ch);
      var panic := PutOpen(m, ch);
      r := if panic then Panic else Ok;
    }

    /** lflseek. */
    method Lflseek(m: int, offset: nat) returns (r: Ret)
      requires Valid() && 0 <= m < |tab|
      modifies this, tab[m]
      ensures Valid() && Steady(old(st), st)
      ensures old(AbsOk(View())) && (View(), r) == StepSeek(old(View()), m, offset)
      ensures Told() == old(Told())
    {
      hide Slots;
      var c := tab[m];
      ViewOk();
      if !c.used {
        return SysErr;
      }
      OpenAt(m);
      if offset > dir.files[c.dirent].size {
        return SysErr;
      }
      ghost var f := c.dirent;
      PointerKeeps(st, f, offset, LF_BLKSIZ);
      c.pos := offset;
      c.byte := LF_BLKSIZ;
      st := st.(cbs := st.cbs[f := c.View()]);
      SlotsStep(c);
      Finished(m);
      r := Ok;
    }

    /** lflread. */
    method Lflread(m: int, count: int) returns (r: Ret)
      requires Valid() && 0 <= m < |tab|
      modifies this, tab[m]
      ensures Valid() && Steady(old(st), st)
      ensures old(AbsOk(View())) && (View(), r) == StepRead(old(View()), m, count)
      ensures Told() == old(Told())
    {
      hide ValidSpelledOut, Told;
      ViewOk();
      if count < 0 {
        return SysErr;
      }
      ghost var a, o := View(), View().open[m];
      var buff: seq<Byte> := [];
      var numread := 0;
      while numread < count
        invariant Valid() && Steady(old(st), st) && 0 <= numread <= count && |buff| == numread && Told() == old(Told())
        invariant o.Closed? ==> numread == 0 && View() == a
        invariant o.At? ==> o.pos + numread <= |a.files[o.file]| && buff == a.files[o.file][o.pos..o.pos + numread]
        invariant o.At? ==> View() == a.(open := a.open[m := At(o.file, o.pos + numread)])
      {
        var nxtbyte := Lflgetc(m);
        if nxtbyte == SysErr {
          return SysErr;
        } else if nxtbyte == Eof {
          return if numread == 0 then Eof else Bytes(buff);
        }
        buff := buff + [nxtbyte.ch];
        numread := numread + 1;
      }
      r := if count == 0 then Count(0) else Bytes(buff);
    }

    /** lflwrite. It panics when the bytes need more blocks than are free. */
    method Lflwrite(m: int, buff: seq<Byte>, count: int) returns (r: Ret)
      requires Valid() && 0 <= m < |tab| && count <= |buff|
      modifies this, tab[m]
      ensures r == Panic <==> count > 0 && old(tab[m].used && OverFull(m, count))
      ensures r != Panic ==> Valid() && Steady(old(st), st)
      ensures r != Panic ==> old(AbsOk(View())) && (View(), r) == StepWrite(old(View()), m, buff, count)
      ensures r != Panic ==> Told() == (old(Told()) || Resized(old(st).data, st.data))
    {
      hide Slots, Resized, OutOfSpace, Room, Overwrite, Written;
      SameSize(st.data);
      ViewOk();
      if count < 0 {
        return SysErr;
      }
      ghost var a, used, f, pos := View(), tab[m].used, tab[m].dirent, tab[m].pos;
      EmptyWrite(a, m);
      var i := 0;
      while i < count
        invariant Valid() && Steady(old(st), st) && 0 <= i <= count
        invariant !used ==> i == 0 && View() == a
        invariant used ==> View() == Written(a, m, buff[..i]) && SameRoom(old(st), st, f)
        invariant Told() == (old(Told()) || Resized(a.files, st.data))
        invariant used && i > 0 ==> !OutOfSpace(Room(st, f), Max(|a.files[f]|, pos + i))
      {
        ViewOk();
        if used {
          NextByte(a, m, buff, i);
          MoreSpace(Room(st, f), Max(|a.files[f]|, pos + i + 1), Max(|a.files[f]|, pos + count));
        }
        r := Lflputc(m, buff[i]);
        if r == SysErr {
          return;
        }
        if r == Panic {
          return;
        }
        i := i + 1;
      }
      r := Count(count);
    }

    // ---- truncation

    /** The state inside the walk of lftruncate, which began at s0 with directory dir0. */
    ghost predicate InWalk(s0: Fs, f: int, k: int, q: int)
      requires Sizes(s0) && 0 <= f < |s0.data|
      reads this
    {
      && dirpresent && Views(disk, st) && WfDir(dir) && Walking(s0, st, f, k, q)
      && dir.dfree == PrevIn(s0.dp.lists[f], q, Head(s0.dp.free))
    }

    /** The inner loop of lftruncate: free the data blocks of the k-th index block. */
    method FreeDblocks(iblock: Iblk, ghost s0: Fs, ghost f: int, ghost k: int) returns (cleared: seq<int>)
      requires Sizes(s0) && 0 <= f < |s0.data| && 0 <= k < |s0.ip.lists[f]| && 16 * k <= |s0.dp.lists[f]|
      requires InWalk(s0, f, k, 16 * k) && iblock == IblkFor(s0.ip.lists[f], s0.dp.lists[f], k)
      requires forall q :: 0 <= q < |s0.dp.lists[f]| ==> s0.nib < s0.dp.lists[f][q] < |s0.disk|
      modifies this`disk, this`dir, this`st
      ensures InWalk(s0, f, k, LfsSpec.Min(16 * (k + 1), |s0.dp.lists[f]|))
      ensures dir == old(dir).(dfree := dir.dfree)
      ensures |cleared| == LF_IBLEN && forall j :: 0 <= j < LF_IBLEN ==> cleared[j] == LF_DNULL
    {
      ghost var dch := s0.dp.lists[f];
      cleared := iblock.dba;
      var i := 0;
      ghost var q := 16 * k;
      while i < LF_IBLEN
        invariant 0 <= i <= LF_IBLEN && q == LfsSpec.Min(16 * k + i, |dch|)
        invariant InWalk(s0, f, k, q) && dir == old(dir).(dfree := dir.dfree)
        invariant |cleared| == LF_IBLEN && forall j :: 0 <= j < i ==> cleared[j] == LF_DNULL
      {
        var nextdb := iblock.dba[i];
        if nextdb != LF_DNULL {
          ghost var s := st;
          Lfdbfree(nextdb);
          WalkData(s0, s, f, k, q, st);
          q := q + 1;
        }
        cleared := cleared[i := LF_DNULL];
        i := i + 1;
      }
    }

    /** The outer loop of lftruncate: dispose of the chain, ending it in the free list. */
    method FreeChain(firstib: int, ifree: int, ghost s0: Fs, ghost f: int)
      requires Sound(s0) && 0 <= f < |s0.data| && !s0.cbs[f].ibdirty && s0.ip.lists[f] != []
      requires InWalk(s0, f, 0, 0) && firstib == s0.ip.lists[f][0] && ifree == Head(s0.ip.free)
      modifies this`disk, this`dir, this`st
      ensures InWalk(s0, f, |s0.ip.lists[f]|, |s0.dp.lists[f]|) && dir == old(dir).(dfree := dir.dfree)
    {
      ghost var ich, dch := s0.ip.lists[f], s0.dp.lists[f];
      ChainFacts(s0, f);
      var nextib := firstib;
      ghost var k := 0;
      while nextib != ifree
        invariant 0 <= k <= |ich| && nextib == (if k < |ich| then ich[k] else ifree)
        invariant InWalk(s0, f, k, LfsSpec.Min(16 * k, |dch|)) && dir == old(dir).(dfree := dir.dfree)
        decreases |ich| - k
      {
        WalkNext(s0, st, f, k, LfsSpec.Min(16 * k, |dch|));
        var iblock := Lfibget(nextib);
        CleanIblk(s0, f, k);
        var cleared := FreeDblocks(iblock, s0, f, k);
        iblock := iblock.(dba := cleared);
        iblock := iblock.(offset := 0);
        if iblock.next == LF_INULL {
          iblock := iblock.(next := ifree);
        }
        WalkIndex(s0, st, f, k, LfsSpec.Min(16 * (k + 1), |dch|), iblock);
        Lfibput(nextib, iblock);
        nextib := iblock.next;
        k := k + 1;
      }
    }

    /** lftruncate, past the test for an empty file and the write-back. */
    method CutOff(c: OpenFile)
      requires Busy(c) && !c.ibdirty && !c.dbdirty && st.data[c.dirent] != []
      requires Tight(st.ip.lists[c.dirent], st.dp.lists[c.dirent], |st.data[c.dirent]|)
      modifies this`disk, this`dir, this`dirdirty, this`st, c`pos, c`inum, c`dnum, c`byte
      ensures Busy(c) && dirdirty && c.pos == 0 && Settled(st, c.dirent)
      ensures OneFile(old(st), st, c.dirent) && st.data[c.dirent] == []
    {
      hide Slots, Walking, SameNames, OneFile, Released, Views;
      ghost var f, s0 := c.dirent, st;
      DirWf(st);
      Known(st, f);
      c.pos := 0;
      c.inum := LF_INULL;
      c.dnum := LF_DNULL;
      c.byte := LF_BLKSIZ;
      var ifree := dir.ifree;
      var firstib := dir.files[c.dirent].ilist;
      dir := dir.(files := dir.files[c.dirent := dir.files[c.dirent].(ilist := LF_INULL, size := 0)]);
      dirdirty := true;
      StartWalk(s0, f);
      FreeChain(firstib, ifree, s0, f);
      ghost var s1 := st;
      st := TruncateWalked(s0, s1, f);
      ViewsSame(disk, s1, st);
      dir := dir.(ifree := firstib);
      dirdirty := true;
      SlotsStep(c);
    }

    /** lftruncate and its caller lflcontrol(LF_CTL_TRUNC). */
    method Lftruncate(m: int) returns (r: Ret)
      requires Valid() && 0 <= m < |tab|
      modifies this, tab[m]
      ensures Valid() && Steady(old(st), st)
      ensures old(AbsOk(View())) && (View(), r) == StepTruncate(old(View()), m)
      ensures if old(tab[m].used) then r == Ok && Emptied(old(View()), View(), m) else r == SysErr && View() == old(View())
      ensures Told() == (old(Told()) || Resized(old(st).data, st.data))
    {
      hide Slots, Emptied, Views;
      var c := tab[m];
      ViewOk();
      if !c.used {
        return SysErr;
      }
      TruncateEmpties(View(), m);
      OpenAt(m);
      if dir.files[c.dirent].size == 0 {
        return Ok;
      }
      if c.ibdirty || c.dbdirty {
        Lfflush(c);
      }
      CutOff(c);
      Finished(m);
      r := Ok;
    }

    /** lflcontrol. */
    method Lflcontrol(m: int, func: int) returns (r: Ret)
      requires Valid() && 0 <= m < |tab|
      modifies this, tab[m]
      ensures Valid() && Steady(old(st), st)
      ensures old(AbsOk(View())) && (View(), r) == if func == LF_CTL_TRUNC then StepTruncate(old(View()), m) else (old(View()), SysErr)
      ensures if func == LF_CTL_TRUNC && old(tab[m].used) then r == Ok && Emptied(old(View()), View(), m) else r == SysErr && View() == old(View())
      ensures Told() == (old(Told()) || Resized(old(st).data, st.data))
    {
      ViewOk();
      if !tab[m].used {
        return SysErr;
      }
      if func == LF_CTL_TRUNC {
        r := Lftruncate(m);
      } else {
        r := SysErr;
      }
    }

    // ---- opening and closing

    /** What is left on disk once file f is closed: all of it, unless it was never written. */
    ghost predicate OnDiskAgain(f: int)
      reads this
    {
      |disk| > 0 && 0 <= f < |st.data| &&
      var d := DecodeDir(disk[0]);
      if f < d.nfiles then f < LF_NUM_DIR_ENT && StoredFile(disk, f) == st.data[f] else st.data[f] == []
    }

    /** The name comparison of lfsopen: does the C string `nam` equal the one stored in cmp? */
    static method SameName(nam: seq<Byte>, cmp: Name) returns (same: bool)
      requires |nam| < LF_NAME_LEN && 0 !in nam
      ensures same <==> nam + [0] <= cmp
    {
      var i := 0;
      while i < |nam|
        invariant 0 <= i <= |nam| && nam[..i] == cmp[..i]
      {
        if nam[i] != cmp[i] {
          assert !(nam + [0] <= cmp) by {
            assert (nam + [0])[i] == nam[i];
          }
          return false;
        }
        i := i + 1;
      }
      assert nam + [0] <= cmp <==> cmp[..|nam| + 1] == nam + [0];
      same := cmp[i] == 0;
    }

    /** The search of lfsopen through the pseudo-devices: some open file has this name, or else
        the first free device. */
    method FindDevice(name: seq<Byte>) returns (clash: bool, lfnext: int)
      requires Valid() && |name| < LF_NAME_LEN && 0 !in name
      ensures clash <==> name == [] && SomeOpen(Open())
      ensures !clash ==> lfnext == FirstClosed(Open(), 0)
    {
      ViewOk();
      assert ValidSpelledOut(0);
      ghost var hs := Open();
      clash, lfnext := false, -1;
      var i := 0;
      while i < |tab|
        invariant 0 <= i <= |tab|
        invariant forall k :: 0 <= k < i && hs[k].At? ==> name != []
        invariant if lfnext == -1 then forall k :: 0 <= k < i ==> hs[k].At?
                  else 0 <= lfnext < i && hs[lfnext].Closed? && forall k :: 0 <= k < lfnext ==> hs[k].At?
      {
        assert tab[i].used <==> hs[i].At?;
        if !tab[i].used {
          if lfnext == -1 {
            lfnext := i;
          }
        } else {
          var same := SameName(name, tab[i].name);
          assert name != [] ==> (name + [0])[0] == name[0];
          if same {
            return true, lfnext;
          }
        }
        i := i + 1;
      }
      FirstClosedIs(hs, 0, lfnext);
    }

    /** The search of lfsopen through the directory. */
    method FindEntry(name: seq<Byte>) returns (found: bool, g: int)
      requires 0 <= dir.nfiles <= |dir.files| && |name| < LF_NAME_LEN && 0 !in name
      ensures g == FindName(NamesOf(dir), name, 0) && 0 <= g <= dir.nfiles && (found <==> g < dir.nfiles)
      ensures found ==> name + [0] <= dir.files[g].name
    {
      found, g := false, 0;
      while g < dir.nfiles
        invariant 0 <= g <= dir.nfiles
        invariant forall k :: 0 <= k < g ==> !(name + [0] <= NamesOf(dir)[k])
      {
        var same := SameName(name, dir.files[g].name);
        if same {
          found := true;
          break;
        }
        g := g + 1;
      }
      FindNameIs(NamesOf(dir), name, 0, g);
    }

    /** Read the directory if this is the first open. */
    method LoadDirectory()
      requires Valid()
      modifies this`dir, this`dirpresent
      ensures Valid() && dirpresent && st.dir == dir && NamesOf(dir) == old(NamesOf(st.dir))
    {
      assert ValidSpelledOut(0);
      if !dirpresent {
        dir := DecodeDir(disk[LF_AREA_DIR]);
        dirpresent := true;
        assert Consistent();
      }
    }

    /** A new, empty entry at the end of the directory, in memory only. */
    method AddEntry(name: seq<Byte>)
      requires Valid() && dirpresent && st.dir == dir && dir.nfiles < LF_NUM_DIR_ENT == |dir.files| && 0 <= dir.nfiles && |name| < LF_NAME_LEN
      modifies this`dir, this`st, this`opener
      ensures Valid() && dirpresent && st.dir == dir && dir.nfiles == old(dir.nfiles) + 1 && |dir.files| == |old(dir.files)|
      ensures View() == Abs(old(st).data + [[]], old(Open()))
      ensures NamesAfter(old(NamesOf(dir)), name, old(dir.nfiles), NamesOf(dir)) && |old(NamesOf(dir))| == old(dir.nfiles)
      ensures Told() == dirdirty && st.ddir == old(st).ddir && st.nib == old(st).nib && |st.disk| == |old(st).disk|
    {
      hide Settled, Fill, ClearIblk, NamesAfter, NamesOf;
      assert ValidSpelledOut(0);
      var g := dir.nfiles;
      var to := name + [0] + dir.files[g].name[|name| + 1..];
      ghost var c := FreshCb(Fill(0), ClearIblk(0));
      AddKeeps(st, to, c);
      dir := dir.(nfiles := g + 1, files := dir.files[g := Entry(0, LF_INULL, to)]);
      st := Added(st, to, c);
      opener := opener + [-1];
      AddedInv(old(st), to, c);
      assert Consistent();
      AddedName(old(dir), name, to);
    }

    /** Initialize a control block for directory entry g. The copy of the name never advances, so
        every character, and last the null byte, lands in the first place. */
    method InitBlock(c: OpenFile, g: int, name: seq<Byte>, rw: int)
      modifies c
      ensures c.used && c.dirent == g && c.name[0] == 0 && c.View() == FreshCb(c.dblock, c.iblock)
    {
      c.used := true;
      c.dirent := g;
      c.mode := rw;
      c.pos := 0;
      var i := 0;
      while i < |name|
        modifies c`name
      {
        c.name := c.name[0 := name[i]];
        i := i + 1;
      }
      c.name := c.name[0 := 0];
      c.inum := LF_INULL;
      c.dnum := LF_DNULL;
      c.byte := LF_BLKSIZ;
      c.ibdirty := false;
      c.dbdirty := false;
    }

    /** Use device m for directory entry g. */
    method UseDevice(m: int, g: int, name: seq<Byte>, rw: int)
      requires Valid() && dirpresent && 0 <= m < |tab| && !tab[m].used && 0 <= g < |st.data|
      modifies this`st, this`opener, tab[m]
      ensures st.data == old(st).data && st.dir == old(st).dir && tab[m].used && tab[m].dirent == g && tab[m].pos == 0
      ensures View() == Abs(old(st).data, old(Open())[m := At(g, 0)]) && (Valid() <==> !IsOpen(old(Open()), g))
      ensures st.ddir == old(st).ddir && st.nib == old(st).nib && |st.disk| == |old(st).disk|
    {
      OpenerKnown(g);
      assert Slots() by {
        assert ValidSpelledOut(0);
      }
      var c: OpenFile := tab[m];
      InitBlock(c, g, name, rw);
      if opener[g] == -1 {
        st := st.(cbs := st.cbs[g := c.View()]);
        opener := opener[g := m];
        OpenKeeps(m);
      } else {
        OpenTwice(opener[g], m);
      }
    }

    /** A file is open exactly when it has an opener. */
    lemma OpenerKnown(g: int)
      requires Valid() && 0 <= g < |st.data|
      ensures |opener| == |st.data|
      ensures IsOpen(Open(), g) <==> opener[g] != -1
      ensures opener[g] != -1 ==> 0 <= opener[g] < |tab| && tab[opener[g]].used && tab[opener[g]].dirent == g
    {
      ViewOk();
      assert ValidSpelledOut(0);
      if opener[g] != -1 {
        assert Open()[opener[g]].At? && Open()[opener[g]].file == g;
      }
    }

    /** Opening a file that is not open keeps the system valid. */
    twostate lemma OpenKeeps(m: int)
      requires old(Valid()) && 0 <= m < |tab| && Opening(m)
      requires dirpresent && old(dirpresent) && disk == old(disk) && dir == old(dir) && dirdirty == old(dirdirty)
      requires forall i :: 0 <= i < |tab| && i != m ==> unchanged(tab[i])
      ensures Valid() && 0 <= tab[m].dirent && View() == Abs(old(st).data, old(Open())[m := At(tab[m].dirent, 0)])
    {
      assert ValidSpelledOut(0);
      var g := tab[m].dirent;
      ResetKeeps(old(st), g, tab[m].View());
      OpenInv(old(st), st, g);
      OpenSlots(m);
      assert Consistent();
      assert Open() == old(Open())[m := At(g, 0)];
    }

    lemma DeviceOf(m: int)
      requires Valid() && 0 <= m < |tab| && tab[m].used
      ensures 0 <= tab[m].dirent < |opener| && opener[tab[m].dirent] == m
    {
      assert ValidSpelledOut(0);
    }

    /** Two devices with the same directory entry are not a valid state. */
    lemma OpenTwice(m: int, n: int)
      requires 0 <= m < |tab| && 0 <= n < |tab| && m != n
      requires tab[m].used && tab[n].used && tab[m].dirent == tab[n].dirent
      ensures !Valid()
    {
      if Valid() {
        DeviceOf(m);
        DeviceOf(n);
      }
    }

    /** Control block m was free and now has a closed file open, at its beginning. */
    twostate predicate Opening(m: int)
      requires 0 <= m < |tab|
      reads this, tab
    {
      var c, g := tab[m], tab[m].dirent;
      && !old(c.used) && 0 <= g < |old(opener)| == |old(st).cbs| && old(opener)[g] == -1
      && c.used && c.name[0] == 0 && c.View() == FreshCb(c.dblock, c.iblock)
      && opener == old(opener)[g := m] && st.cbs == old(st).cbs[g := c.View()] && st == old(st).(cbs := st.cbs)
    }

    twostate lemma OpenSlots(m: int)
      requires old(Slots()) && 0 <= m < |tab| && Opening(m) && dirpresent
      requires forall i :: 0 <= i < |tab| && i != m ==> unchanged(tab[i])
      ensures Slots()
    {
    }

    /** The part of lfsopen that works on the directory: the entry for this name, which may be new, or -1
        if the mode does not allow it. */
    method EntryFor(name: seq<Byte>, mode: Mode) returns (g: int)
      requires Valid() && |name| < LF_NAME_LEN && 0 !in name && mode.Mode?
      modifies this`dir, this`dirpresent, this`st, this`opener
      ensures Valid() && dirpresent && |old(st).data| == |old(NamesOf(st.dir))|
      ensures g != -1 ==> g == FindName(old(NamesOf(st.dir)), name, 0)
      ensures var names := old(NamesOf(st.dir));
        g == -1 <==> if FindName(names, name, 0) == |names| then mode.mustExist || |names| >= LF_NUM_DIR_ENT else mode.mustNotExist
      ensures g == -1 ==> View() == old(View()) && NamesOf(st.dir) == old(NamesOf(st.dir))
      ensures g != -1 ==> NamesAfter(old(NamesOf(st.dir)), name, g, NamesOf(st.dir))
      ensures g != -1 ==> 0 <= g < |NamesOf(st.dir)| == |st.data| && name + [0] <= NamesOf(st.dir)[g]
      ensures g != -1 ==> View() == Abs(if g < |old(st).data| then old(st).data else old(st).data + [[]], old(Open()))
      ensures st.ddir == old(st).ddir && st.nib == old(st).nib && |st.disk| == |old(st).disk|
      ensures g != -1 ==> Told() == if g < |old(st).data| then old(Told()) else dirdirty
    {
      hide FindName;
      ViewOk();
      LoadDirectory();
      ViewOk();
      var found;
      found, g := FindEntry(name);
      if !found {
        if mode.mustExist || dir.nfiles >= LF_NUM_DIR_ENT {
          return -1;
        }
        AddEntry(name);
      } else if mode.mustNotExist {
        return -1;
      }
    }

    /** lfsopen. Nothing stops it from opening a file that another device has open, and then the
        system is no longer valid; in every other case it is. */
    method Lfsopen(name: seq<Byte>, mode: Mode) returns (r: OpenRet)
      requires Valid() && 0 !in name
      modifies this, tab
      ensures r == OpenOutcome(old(NamesOf(st.dir)), old(Open()), name, mode)
      ensures r.OpenErr? ==> Valid() && View() == old(View()) && NamesOf(st.dir) == old(NamesOf(st.dir))
      ensures r.Opened? ==> NamesAfter(old(NamesOf(st.dir)), name, r.file, NamesOf(st.dir))
      ensures r.Opened? ==> 0 <= r.dev < |tab| && 0 <= r.file < |NamesOf(st.dir)| && name + [0] <= NamesOf(st.dir)[r.file]
      ensures r.Opened? ==> (Valid() <==> !IsOpen(old(Open()), r.file))
      ensures r.Opened? ==>
                View() == Abs(if r.file < |old(st).data| then old(st).data else old(st).data + [[]], old(Open())[r.dev := At(r.file, 0)])
      ensures disk == old(disk) && dirdirty == old(dirdirty) && st.ddir == old(st).ddir && st.nib == old(st).nib && |st.disk| == |old(st).disk|
      ensures r.Opened? ==> Told() == if r.file < |old(st).data| then old(Told()) else dirdirty
    {
      hide NamesAfter, FindName;
      ViewOk();
      if |name| >= LF_NAME_LEN || mode.BadMode? {
        return OpenErr;
      }
      var clash, lfnext := FindDevice(name);
      if clash || lfnext == -1 {
        return OpenErr;
      }
      var g := EntryFor(name, mode);
      if g == -1 {
        return OpenErr;
      }
      ViewOk();
      FirstClosedIn(old(Open()), 0);
      UseDevice(lfnext, g, name, mode.rw);
      r := Opened(lfnext, g);
    }

    /** lflclose. */
    method Lflclose(m: int) returns (r: Ret)
      requires Valid() && 0 <= m < |tab|
      modifies this, tab[m]
      ensures Valid() && Steady(old(st), st)
      ensures !old(tab[m].used) ==> r == SysErr && View() == old(View())
      ensures old(tab[m].used) ==> r == Ok && View() == Abs(old(st).data, old(Open())[m := Closed]) && !dirdirty
      ensures old(tab[m].used) ==> OnDiskAgain(old(tab[m].dirent))
      ensures old(tab[m].used) ==> (DecodeDir(disk[0]).nfiles == |st.data| <==> old(Told()))
      ensures old(tab[m].used) ==> DecodeDir(disk[0]).nfiles <= |st.data|
    {
      hide Slots, Settled, DirSynced, Tight, PosOk, Views, Mounted;
      var c := tab[m];
      if !c.used {
        return SysErr;
      }
      OpenAt(m);
      ghost var f := c.dirent;
      if dirdirty || c.dbdirty || c.ibdirty {
        Lfflush(c);
      }
      StillSettled(old(st), st, f);
      Finished(m);
      Detach(c);
      assert Open() == old(Open())[m := Closed];
      r := Ok;
    }

    /** The last step of lflclose: free the control block, all of whose contents are on disk. */
    method Detach(c: OpenFile)
      requires Valid() && c in tab && c.used && !c.ibdirty && !c.dbdirty && !dirdirty
      modifies this`opener, c`used
      ensures Valid() && !c.used && OnDiskAgain(c.dirent)
      ensures DecodeDir(disk[0]).nfiles == st.ddir.nfiles <= |st.data| == st.dir.nfiles
    {
      assert ValidSpelledOut(0);
      ghost var f := c.dirent;
      ReadBackClosed(f);
      c.used := false;
      opener := opener[f := -1];
      assert Consistent();
    }

    lemma ReadBackClosed(f: int)
      requires Views(disk, st) && Inv(st) && DirSynced(st) && 0 <= f < |st.data| && !st.cbs[f].ibdirty && !st.cbs[f].dbdirty
      ensures OnDiskAgain(f)
    {
      assert Settled(st, f);
      assert st.ddir == DecodeDir(disk[0]);
      if f < st.ddir.nfiles {
        ReadsBack(disk, st, f);
      }
    }
  }

  ghost function NamesOf(d: Dir): seq<Name> {
    if 0 <= d.nfiles <= |d.files| then seq(d.nfiles, g requires 0 <= g < d.nfiles => d.files[g].name) else []
  }

  lemma AddedName(d: Dir, name: seq<Byte>, to: Name)
    requires 0 <= d.nfiles < |d.files| && name + [0] <= to
    ensures var d' := d.(nfiles := d.nfiles + 1, files := d.files[d.nfiles := Entry(0, LF_INULL, to)]);
      NamesAfter(NamesOf(d), name, d.nfiles, NamesOf(d')) && |NamesOf(d)| == d.nfiles
  {
    var d' := d.(nfiles := d.nfiles + 1, files := d.files[d.nfiles := Entry(0, LF_INULL, to)]);
    assert NamesOf(d')[..d.nfiles] == NamesOf(d);
  }

  lemma AddedInv(s: Fs, name: Name, c: Cb)
    requires Inv(s) && s.dir.nfiles < LF_NUM_DIR_ENT && Sound(Added(s, name, c)) && c.pos == 0 && c.byte == LF_BLKSIZ
    ensures Inv(Added(s, name, c))
  {
    var s' := Added(s, name, c);
    forall g | 0 <= g < |s'.data|
      ensures Settled(s', g)
    {
      assert g < |s.data| ==> Settled(s, g);
    }
  }

  lemma OpenInv(s: Fs, s': Fs, f: int)
    requires Inv(s) && 0 <= f < |s.data| && Sound(s')
    requires s'.ip == s.ip && s'.dp == s.dp && s'.data == s.data && s'.cbs == s.cbs[f := s'.cbs[f]]
    requires s'.cbs[f].pos == 0 && s'.cbs[f].byte == LF_BLKSIZ
    ensures Inv(s')
  {
    forall g | 0 <= g < |s'.data|
      ensures Settled(s', g)
    {
      assert Settled(s, g);
    }
  }

  /** Writing back does not move the position or the blocks. */
  lemma StillSettled(s: Fs, s': Fs, f: int)
    requires OnlyFile(s, s', f) && Settled(s, f) && s'.ip == s.ip && s'.dp == s.dp
    requires s'.cbs[f] == s.cbs[f].(ibdirty := s'.cbs[f].ibdirty, dbdirty := s'.cbs[f].dbdirty)
    ensures Settled(s', f)
  {
  }

  /** The blocks are there for one more byte at the position. */
  lemma Reached(s: Fs, s1: Fs, f: int, pos: int)
    requires OnlyFile(s, s1, f) && Settled(s, f) && 0 <= pos <= |s.data[f]|
    requires |s1.dp.lists[f]| == Reaching(|s.dp.lists[f]|, pos / 512) && |s1.ip.lists[f]| == Reaching(|s.ip.lists[f]|, pos / 8192)
    ensures Tight(s1.ip.lists[f], s1.dp.lists[f], Max(|s.data[f]|, pos + 1)) && |s1.data[f]| <= 512 * |s1.dp.lists[f]|
    ensures |s1.dp.lists[f]| != |s.dp.lists[f]| || |s1.ip.lists[f]| != |s.ip.lists[f]| ==> pos == |s.data[f]|
  {
  }

  lemma Stored(s: Fs, s1: Fs, s2: Fs, f: int, pos: int)
    requires OnlyFile(s, s1, f) && OneFile(s1, s2, f) && s2.ip == s1.ip && s2.dp == s1.dp
    requires 0 <= pos <= |s.data[f]| && |s2.data[f]| == Max(|s.data[f]|, pos + 1) && Tight(s1.ip.lists[f], s1.dp.lists[f], |s2.data[f]|)
    requires PosOk(s2.dp.lists[f], |s2.data[f]|, s2.cbs[f])
    ensures OneFile(s, s2, f) && Settled(s2, f) && SameRoom(s, s2, f) && Steady(s, s2)
    ensures s2.data == s.data[f := s2.data[f]]
  {
    assert s2.data == s1.data[f := s2.data[f]];
  }

  lemma TightBounds(n: nat)
    ensures n <= 512 * ((n + 511) / 512) <= 8192 * ((n + 8191) / 8192)
    ensures n > 0 ==> 0 < (n + 8191) / 8192
  {
  }

  /** A file's chain for the walk: no block is null or free, and the links fit. */
  lemma ChainFacts(s: Fs, f: int)
    requires Sound(s) && 0 <= f < |s.data|
    ensures var ich, dch := s.ip.lists[f], s.dp.lists[f];
      && 16 * (|ich| - 1) <= |dch| <= 16 * |ich| && IsId(Head(s.ip.free))
      && (forall k :: 0 <= k < |ich| ==> 0 <= ich[k] < |s.ibs| && ich[k] != Head(s.ip.free))
      && (forall q :: 0 <= q < |dch| ==> s.nib < dch[q] < |s.disk|)
  {
    assert SoundSpelledOut(s);
    assert FileAt(s, f);
    FileBlocks(s.ip, f, 0, 7 * s.nib);
    FileBlocks(s.dp, f, s.nib + 1, |s.disk|);
    HeadOk(s.ip, 0, 7 * s.nib);
  }

  lemma CleanIblk(s: Fs, f: int, k: int)
    requires Sound(s) && 0 <= f < |s.data| && 0 <= k < |s.ip.lists[f]| && !s.cbs[f].ibdirty
    ensures 0 <= s.ip.lists[f][k] < |s.ibs| && s.ibs[s.ip.lists[f][k]] == IblkFor(s.ip.lists[f], s.dp.lists[f], k)
  {
    assert SoundSpelledOut(s);
    assert FileAt(s, f);
    assert s.ibs[s.ip.lists[f][k]] == IblkFor(s.ip.lists[f], s.dp.lists[f], k);
  }

  lemma StartWalk(s: Fs, f: int)
    requires Sound(s) && 0 <= f < |s.data|
    ensures Walking(s, s, f, 0, 0) && s.dir.ifree == Head(s.ip.free) && s.dir.dfree == Head(s.dp.free)
  {
    assert SoundSpelledOut(s);
    WalkStart(s, f);
  }

  lemma DirWf(s: Fs)
    requires Sound(s)
    ensures WfDir(s.dir)
  {
    assert SoundSpelledOut(s);
  }

  /** Some file is longer or shorter than it was. */
  ghost predicate Resized(files: seq<seq<Byte>>, files': seq<seq<Byte>>) {
    |files'| == |files| && exists f :: 0 <= f < |files| && |files'[f]| != |files[f]|
  }

  /** A first index block changes nothing else. */
  lemma TookFirstOnly(s: Fs, f: int)
    requires Sizes(s) && 0 <= f < |s.data| && s.ip.lists[f] == [] && s.ip.free != [] && 0 <= Head(s.ip.free) < |s.ibs|
    ensures var s' := TookFirst(s, f); OnlyFile(s, s', f) && s'.dp == s.dp && s'.ip.lists[f] == [Head(s.ip.free)]
  {
  }

  /** A longer chain changes nothing else. */
  lemma ExtendedOnly(s: Fs, f: int)
    requires Sizes(s) && 0 <= f < |s.data| && s.ip.free != [] && 0 <= Head(s.ip.free) < |s.ibs| && 0 <= s.cbs[f].inum < |s.ibs|
    ensures var s' := Extended(s, f); OnlyFile(s, s', f) && s'.dp == s.dp && s'.ip.lists[f] == s.ip.lists[f] + [Head(s.ip.free)] && DirSynced(s')
  {
  }

  /** One stored byte changes nothing else. */
  lemma PutByteOnly(s: Fs, f: int, ch: Byte)
    requires Sizes(s) && 0 <= f < |s.data| && EntryOk(s, f) && 0 <= s.cbs[f].pos <= |s.data[f]| && 0 <= s.cbs[f].byte < LF_BLKSIZ
    ensures var s', d := PutByte(s, f, ch), s.dir.files[f];
      && OneFile(s, s', f) && s'.data[f] == PutAt(s.data[f], s.cbs[f].pos, ch) && s'.cbs == s.cbs[f := PutCb(s.cbs[f], ch)] && |s'.data| == |s.data|
      && s'.nib == s.nib && s'.ibs == s.ibs && s'.disk == s.disk && s'.links == s.links && s'.ddir == s.ddir && s'.ip == s.ip && s'.dp == s.dp
      && s'.dir == if s.cbs[f].pos >= d.size then s.dir.(files := s.dir.files[f := d.(size := d.size + 1)]) else s.dir
  {
    var d := s.dir.files[f];
    assert s.cbs[f].pos < |s.data[f]| ==> s.dir.files[f := d.(size := d.size)] == s.dir.files;
  }

  lemma SameSize(files: seq<seq<Byte>>)
    ensures !Resized(files, files)
  {
  }

  /** Once some bytes of a write have made the file longer, it stays longer. */
  lemma ResizedMore(a: Abs, m: int, bs: seq<Byte>, ch: Byte)
    requires AbsOk(a) && 0 <= m < |a.open| && a.open[m].At?
    ensures var x, x' := Written(a, m, bs).files, Written(a, m, bs + [ch]).files; Resized(a.files, x') <==> Resized(a.files, x) || Resized(x, x')
  {
    var f, x, x' := a.open[m].file, Written(a, m, bs).files, Written(a, m, bs + [ch]).files;
    assert |a.files[f]| <= |x[f]| <= |x'[f]|;
    assert Resized(a.files, x) <==> |x[f]| != |a.files[f]|;
    assert Resized(a.files, x') <==> |x'[f]| != |a.files[f]|;
    assert Resized(x, x') <==> |x'[f]| != |x[f]|;
  }

  /** The file at device m has no bytes and is at its beginning, and nothing else has changed. */
  predicate Emptied(a: Abs, a': Abs, m: int)
    requires 0 <= m < |a.open|
  {
    a.open[m].At? && a.open[m].file < |a.files| && a' == Abs(a.files[a.open[m].file := []], a.open[m := At(a.open[m].file, 0)])
  }

  lemma TruncateEmpties(a: Abs, m: int)
    requires AbsOk(a) && 0 <= m < |a.open| && a.open[m].At?
    ensures StepTruncate(a, m).1 == Ok && Emptied(a, StepTruncate(a, m).0, m)
  {
    var f := a.open[m].file;
    if a.files[f] == [] {
      assert a.files[f := []] == a.files && a.open[m := At(f, 0)] == a.open;
    }
  }

  /** Writing byte i after those before it is writing i + 1 bytes. */
  lemma NextByte(a: Abs, m: int, buff: seq<Byte>, i: nat)
    requires AbsOk(a) && 0 <= m < |a.open| && a.open[m].At? && i < |buff| && AbsOk(Written(a, m, buff[..i]))
    ensures var o, w, w' := a.open[m], Written(a, m, buff[..i]), Written(a, m, buff[..i + 1]);
      && |w.open| == |a.open| && |w.files| == |a.files| && w.open[m] == At(o.file, o.pos + i)
      && StepPutc(w, m, buff[i]) == (w', Ok) && |w.files[o.file]| == Max(|a.files[o.file]|, o.pos + i)
      && (Resized(a.files, w'.files) <==> Resized(a.files, w.files) || Resized(w.files, w'.files))
  {
    assert buff[..i + 1] == buff[..i] + [buff[i]];
    PutMore(a, m, buff[..i], buff[i]);
    ResizedMore(a, m, buff[..i], buff[i]);
  }

  lemma MoreSpace(room: (int, int), n: int, n': int)
    requires n <= n'
    ensures OutOfSpace(room, n) ==> OutOfSpace(room, n')
  {
  }

  /** A count of blocks once block q is among them. */
  function Reaching(n: int, q: int): int { if q < n then n else q + 1 }

  ghost predicate SameRoom(s: Fs, s': Fs, f: int) {
    0 <= f < |s.ip.lists| && f < |s.dp.lists| && f < |s'.ip.lists| && f < |s'.dp.lists| && Room(s', f) == Room(s, f)
  }

  function Max(a: int, b: int): int { if a >= b then a else b }

  /** A file of n bytes would need more blocks than it has and are free. */
  ghost predicate OutOfSpace(room: (int, int), n: int) {
    (n + 8191) / 8192 > room.0 || (n + 511) / 512 > room.1
  }

  /** For one more byte that is the same as some block being needed now and not there. */
  lemma NoRoomIsOutOfSpace(s: Fs, f: int, pos: int)
    requires Sizes(s) && 0 <= f < |s.data| && Tight(s.ip.lists[f], s.dp.lists[f], |s.data[f]|) && 0 <= pos <= |s.data[f]|
    ensures NoRoom(s, f, pos) <==> OutOfSpace(Room(s, f), Max(|s.data[f]|, pos + 1))
  {
  }

  lemma PutAtIsOverwrite(data: seq<Byte>, pos: nat, ch: Byte)
    requires pos <= |data|
    ensures PutAt(data, pos, ch) == Overwrite(data, pos, [ch])
  {
  }

  /** The position needs a block that the disk does not have. */
  ghost predicate NoRoom(s: Fs, f: int, pos: int)
    requires Sizes(s) && 0 <= f < |s.data|
  {
    || (pos / 8192 == |s.ip.lists[f]| && s.ip.free == [])
    || (pos / 512 == |s.dp.lists[f]| && s.dp.free == [])
  }

  lemma EmptyIblk(b: int)
    ensures IblkFor([b], [], 0) == ClearIblk(0)
  {
    assert IblkFor([b], [], 0).dba == ClearIblk(0).dba;
  }

  /** The last block of a chain that has room beyond the data is clear. */
  lemma FreshIblk(ich: seq<int>, dch: seq<int>)
    requires ich != [] && |dch| == 16 * (|ich| - 1)
    ensures IblkFor(ich, dch, |ich| - 1) == ClearIblk(8192 * (|ich| - 1))
  {
    assert IblkFor(ich, dch, |ich| - 1).dba == ClearIblk(8192 * (|ich| - 1)).dba;
  }

  /** The head of what is left after taking a block is a block number or null. */
  lemma TakeFree(p: Pool, lo: int, hi: int)
    requires PoolOk(p, lo, hi) && p.free != [] && 0 <= lo && hi <= 0x8000_0000
    ensures IsId(Head(p.free[..|p.free| - 1]))
  {
    if |p.free| > 1 {
      assert p.free[|p.free| - 2] in p.own;
    }
  }

  /** What the disk shows does not depend on the rest of the snapshot. */
  lemma ViewsSame(disk: Disk, s: Fs, s': Fs)
    requires Views(disk, s) && s'.nib == s.nib && s'.ibs == s.ibs && s'.disk == s.disk && s'.links == s.links && s'.ddir == s.ddir
    ensures Views(disk, s')
  {
  }

  lemma ViewsAfterWrite(disk: Disk, s: Fs, d: int, x: Sector)
    requires Views(disk, s) && s.nib < d < |disk|
    ensures Views(disk[d := x], WroteData(s, d, x))
  {
    WriteFrame(disk, s.nib, d, x);
    forall b | 0 <= b < 7 * s.nib
      ensures s.ibs[b] == DiskIblk(disk[d := x], b)
    {
      assert s.ibs[b] == DiskIblk(disk, b);
    }
    forall e | s.nib < e < |disk|
      ensures WroteData(s, d, x).links[e] == LinkWord(disk[d := x][e])
    {
      assert s.links[e] == LinkWord(disk[e]);
    }
    assert s.ddir == DecodeDir(disk[0]);
  }

  lemma ViewsAfterDir(disk: Disk, s: Fs, dir: Dir)
    requires Views(disk, s) && WfDir(dir)
    ensures Views(disk[0 := EncodeDir(dir)], s.(ddir := dir))
  {
    var disk' := disk[0 := EncodeDir(dir)];
    WriteFrame(disk, s.nib, 0, EncodeDir(dir));
    forall b | 0 <= b < 7 * s.nib
      ensures s.ibs[b] == DiskIblk(disk', b)
    {
      assert s.ibs[b] == DiskIblk(disk, b);
    }
    forall e | s.nib < e < |disk|
      ensures s.links[e] == LinkWord(disk'[e])
    {
      assert s.links[e] == LinkWord(disk[e]);
    }
    DirRoundTrip(dir);
  }

  lemma ViewsAfterIbPut(disk: Disk, s: Fs, b: int, ib: Iblk)
    requires Views(disk, s) && 0 <= b < 7 * s.nib && WfIblk(ib)
    ensures Views(IbPut(disk, b, ib), s.(ibs := s.ibs[b := ib]))
  {
    var disk', s' := IbPut(disk, b, ib), s.(ibs := s.ibs[b := ib]);
    assert Ib2Sect(b) <= s.nib && forall d :: s.nib < d < |disk| ==> disk'[d] == disk[d];
    forall b2 | 0 <= b2 < 7 * s.nib
      ensures s'.ibs[b2] == DiskIblk(disk', b2)
    {
      IbPutGet(disk, b, ib, b2);
      assert s.ibs[b2] == DiskIblk(disk, b2);
    }
    forall d | s.nib < d < |disk|
      ensures s'.links[d] == LinkWord(disk'[d])
    {
      assert s.links[d] == LinkWord(disk[d]);
    }
    assert s.ddir == DecodeDir(disk[0]);
  }
}
