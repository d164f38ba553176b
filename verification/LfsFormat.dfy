/** On-disk formats of the local file system: little-endian words, index blocks packed
    seven to a sector, and the directory sector. */
module LfsFormat {

  const LF_BLKSIZ := 512
  const LF_NAME_LEN := 16
  const LF_NUM_DIR_ENT := 20
  const LF_INULL := -1
  const LF_DNULL := -1
  const LF_IBLEN := 16
  const LF_AREA_IB := 1
  const LF_AREA_DIR := 0
  const IB_SIZE := 72
  const IB_PER_SECTOR := 7

  type Byte = x: int | 0 <= x < 256
  type Word = x: int | 0 <= x < 0x1_0000_0000
  type Id = x: int | -0x8000_0000 <= x < 0x8000_0000
  type Sector = b: seq<Byte> | |b| == 512 witness seq(512, i => 0)
  type Name = b: seq<Byte> | |b| == 16 witness seq(16, i => 0)

  datatype Iblk = Iblk(next: int, offset: int, dba: seq<int>)
  datatype Entry = Entry(size: int, ilist: int, name: Name)
  datatype Dir = Dir(dfree: int, ifree: int, nfiles: int, files: seq<Entry>)

  predicate IsId(i: int) { -0x8000_0000 <= i < 0x8000_0000 }

  predicate IsWord(w: int) { 0 <= w < 0x1_0000_0000 }

  /** The record fits the C struct: sixteen pointers, every field in its machine type. */
  predicate WfIblk(ib: Iblk) {
    IsId(ib.next) && IsWord(ib.offset) && |ib.dba| == LF_IBLEN && forall j :: 0 <= j < LF_IBLEN ==> IsId(ib.dba[j])
  }

  predicate WfEntry(e: Entry) { IsWord(e.size) && IsId(e.ilist) }

  predicate WfDir(d: Dir) {
    IsId(d.dfree) && IsId(d.ifree) && 0 <= d.nfiles <= LF_NUM_DIR_ENT && |d.files| == LF_NUM_DIR_ENT &&
    forall e :: 0 <= e < LF_NUM_DIR_ENT ==> WfEntry(d.files[e])
  }

  // ---- machine words

  function ToWord(i: Id): Word { if i < 0 then i + 0x1_0000_0000 else i }

  function ToId(w: Word): Id { if w < 0x8000_0000 then w else w - 0x1_0000_0000 }

  /** Byte r of a word in memory order. */
  function ByteOf(w: Word, r: nat): Byte
  {
    if r == 0 then w % 256
    else if r == 1 then w / 256 % 256
    else if r == 2 then w / 65536 % 256
    else w / 16777216 % 256
  }

  function WordAt(b: seq<Byte>, at: nat): Word
    requires at + 4 <= |b|
  {
    (b[at] as int) + 256 * (b[at + 1] as int) + 65536 * (b[at + 2] as int) + 16777216 * (b[at + 3] as int)
  }

  lemma WordRoundTrip(b: seq<Byte>, at: nat, w: Word)
    requires at + 4 <= |b|
    requires b[at] == ByteOf(w, 0) && b[at + 1] == ByteOf(w, 1) && b[at + 2] == ByteOf(w, 2) && b[at + 3] == ByteOf(w, 3)
    ensures WordAt(b, at) == w
  {
    assert w / 256 / 256 == w / 65536 && w / 65536 / 256 == w / 16777216;
  }

  // ---- index blocks

  function IblkWord(ib: Iblk, j: nat): Word
    requires WfIblk(ib) && j < 18
  {
    if j == 0 then ToWord(ib.next) else if j == 1 then ib.offset else ToWord(ib.dba[j - 2])
  }

  function EncodeIblk(ib: Iblk): (b: seq<Byte>)
    requires WfIblk(ib)
    ensures |b| == IB_SIZE
  {
    seq(IB_SIZE, i requires 0 <= i < IB_SIZE => ByteOf(IblkWord(ib, i / 4), i % 4))
  }

  function DecodeIblk(b: seq<Byte>, at: nat): Iblk
    requires at + IB_SIZE <= |b|
  {
    Iblk(ToId(WordAt(b, at)), WordAt(b, at + 4), seq(LF_IBLEN, j requires 0 <= j < LF_IBLEN => ToId(WordAt(b, at + 8 + 4 * j))))
  }

  lemma IblkWordAt(b: seq<Byte>, at: nat, ib: Iblk, j: nat)
    requires WfIblk(ib) && at + IB_SIZE <= |b| && b[at..at + IB_SIZE] == EncodeIblk(ib) && j < 18
    ensures WordAt(b, at + 4 * j) == IblkWord(ib, j)
  {
    hide WfIblk, IblkWord, ByteOf, WordAt;
    forall r: nat | r < 4
      ensures b[at + 4 * j + r] == ByteOf(IblkWord(ib, j), r)
    {
      assert b[at + 4 * j + r] == b[at..at + IB_SIZE][4 * j + r];
      assert (4 * j + r) / 4 == j && (4 * j + r) % 4 == r;
    }
    assert b[at + 4 * j + 0] == ByteOf(IblkWord(ib, j), 0);
    WordRoundTrip(b, at + 4 * j, IblkWord(ib, j));
  }

  /** Wherever the 72 bytes of an index block lie in a sector, reading them back gives the block. */
  lemma IblkRoundTrip(b: seq<Byte>, at: nat, ib: Iblk)
    requires WfIblk(ib) && at + IB_SIZE <= |b| && b[at..at + IB_SIZE] == EncodeIblk(ib)
    ensures DecodeIblk(b, at) == ib
  {
    IblkWordAt(b, at, ib, 0);
    IblkWordAt(b, at, ib, 1);
    var dba := DecodeIblk(b, at).dba;
    forall j | 0 <= j < LF_IBLEN
      ensures dba[j] == ib.dba[j]
    {
      IblkDbaAt(b, at, ib, j);
    }
    assert dba == ib.dba;
  }

  lemma IblkDbaAt(b: seq<Byte>, at: nat, ib: Iblk, j: nat)
    requires WfIblk(ib) && at + IB_SIZE <= |b| && b[at..at + IB_SIZE] == EncodeIblk(ib) && j < LF_IBLEN
    ensures ToId(WordAt(b, at + 8 + 4 * j)) == ib.dba[j]
  {
    IblkWordAt(b, at, ib, j + 2);
    assert at + 8 + 4 * j == at + 4 * (j + 2);
  }

  // ---- the directory sector: three words, twenty 24-byte entries, twenty bytes of padding

  function EntryByte(e: Entry, r: nat): Byte
    requires WfEntry(e) && r < 24
  {
    if r < 4 then ByteOf(e.size, r) else if r < 8 then ByteOf(ToWord(e.ilist), r - 4) else e.name[r - 8]
  }

  function DirByte(d: Dir, i: nat): Byte
    requires WfDir(d) && i < LF_BLKSIZ
  {
    if i < 4 then ByteOf(ToWord(d.dfree), i)
    else if i < 8 then ByteOf(ToWord(d.ifree), i - 4)
    else if i < 12 then ByteOf(d.nfiles, i - 8)
    else if i < 492 then EntryByte(d.files[(i - 12) / 24], (i - 12) % 24)
    else 0
  }

  function EncodeDir(d: Dir): Sector
    requires WfDir(d)
  {
    seq(LF_BLKSIZ, i requires 0 <= i < LF_BLKSIZ => DirByte(d, i))
  }

  function DecodeEntry(b: Sector, e: nat): Entry
    requires e < LF_NUM_DIR_ENT
  {
    var at := 12 + 24 * e;
    Entry(WordAt(b, at), ToId(WordAt(b, at + 4)), b[at + 8..at + 24])
  }

  function DecodeDir(b: Sector): Dir {
    Dir(ToId(WordAt(b, 0)), ToId(WordAt(b, 4)), ToId(WordAt(b, 8)),
        seq(LF_NUM_DIR_ENT, e requires 0 <= e < LF_NUM_DIR_ENT => DecodeEntry(b, e)))
  }

  lemma EntryByteAt(d: Dir, e: nat, r: nat)
    requires WfDir(d) && e < LF_NUM_DIR_ENT && r < 24
    ensures EncodeDir(d)[12 + 24 * e + r] == EntryByte(d.files[e], r)
  {
    var i := 12 + 24 * e + r;
    assert (i - 12) / 24 == e && (i - 12) % 24 == r;
    assert EncodeDir(d)[i] == DirByte(d, i);
  }

  lemma EntryRoundTrip(d: Dir, e: nat)
    requires WfDir(d) && e < LF_NUM_DIR_ENT
    ensures DecodeEntry(EncodeDir(d), e) == d.files[e]
  {
    var b, at, en := EncodeDir(d), 12 + 24 * e, d.files[e];
    EntryByteAt(d, e, 0); EntryByteAt(d, e, 1); EntryByteAt(d, e, 2); EntryByteAt(d, e, 3);
    WordRoundTrip(b, at, en.size);
    EntryByteAt(d, e, 4); EntryByteAt(d, e, 5); EntryByteAt(d, e, 6); EntryByteAt(d, e, 7);
    WordRoundTrip(b, at + 4, ToWord(en.ilist));
    forall r | 0 <= r < 16
      ensures b[at + 8..at + 24][r] == en.name[r]
    {
      EntryByteAt(d, e, 8 + r);
    }
    assert b[at + 8..at + 24] == en.name;
  }

  /** Writing the directory to its sector and reading it back loses nothing. */
  lemma DirRoundTrip(d: Dir)
    requires WfDir(d)
    ensures DecodeDir(EncodeDir(d)) == d
  {
    var b := EncodeDir(d);
    WordRoundTrip(b, 0, ToWord(d.dfree));
    WordRoundTrip(b, 4, ToWord(d.ifree));
    WordRoundTrip(b, 8, d.nfiles);
    forall e | 0 <= e < LF_NUM_DIR_ENT
      ensures DecodeDir(b).files[e] == d.files[e]
    {
      EntryRoundTrip(d, e);
    }
    assert DecodeDir(b).files == d.files;
  }

  /** Whatever sector is read as a directory, its fields fit their machine types. */
  lemma DecodedDirWf(b: Sector)
    requires 0 <= DecodeDir(b).nfiles <= LF_NUM_DIR_ENT
    ensures WfDir(DecodeDir(b))
  {
    var d := DecodeDir(b);
    forall e | 0 <= e < LF_NUM_DIR_ENT
      ensures WfEntry(d.files[e])
    {
      assert d.files[e] == DecodeEntry(b, e);
    }
  }
}
