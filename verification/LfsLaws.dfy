/** Laws of the file operations: what each does to bytes and positions, whatever came before. */
module LfsLaws {
  import opened LfsFormat
  import opened LfsSpec

  /** The bytes that a call hands over. */
  function Handed(r: Ret): seq<Byte> {
    match r
    case Char(ch) => [ch]
    case Bytes(bs) => bs
    case _ => []
  }

  ghost predicate IsAt(a: Abs, m: int) { AbsOk(a) && 0 <= m < |a.open| && a.open[m].At? }

  /** The file open at device m, and the position in it. */
  function FileAt(a: Abs, m: int): seq<Byte>
    requires IsAt(a, m)
  {
    a.files[a.open[m].file]
  }

  function PosAt(a: Abs, m: int): nat
    requires IsAt(a, m)
  {
    a.open[m].pos
  }

  /** a' differs from a in the bytes of the file at m and in the position there alone. */
  ghost predicate Becomes(a: Abs, a': Abs, m: int, data: seq<Byte>, pos: nat)
    requires IsAt(a, m)
  {
    a' == Abs(a.files[a.open[m].file := data], a.open[m := At(a.open[m].file, pos)])
  }

  // ---- truncation

  /** Whatever the position, a truncation empties the file, goes to its beginning, and touches
      nothing else. */
  lemma TruncateIs(a: Abs, m: int)
    requires IsAt(a, m)
    ensures var (a', r) := Step(a, Truncate(m)); r == Ok && Becomes(a, a', m, [], 0) && IsAt(a', m)
  {
    var a' := Step(a, Truncate(m)).0;
    StepKeepsAbsOk(a, Truncate(m));
    if FileAt(a, m) == [] {
      assert a.files[a.open[m].file := []] == a.files && a.open[m := At(a.open[m].file, 0)] == a.open;
    }
  }

  /** Nothing can be read after a truncation. */
  lemma EofAfterTruncate(a: Abs, m: int, count: nat)
    requires IsAt(a, m) && count > 0
    ensures var a' := Step(a, Truncate(m)).0; AbsOk(a') && Step(a', Getc(m)) == (a', Eof) && Step(a', Read(m, count)) == (a', Eof)
  {
    TruncateIs(a, m);
  }

  /** What is written after a truncation is the whole file. */
  lemma WriteAfterTruncate(a: Abs, m: int, bs: seq<Byte>)
    requires IsAt(a, m)
    ensures AbsOk(Step(a, Truncate(m)).0)
    ensures bs != [] ==> Becomes(a, Step(Step(a, Truncate(m)).0, Write(m, bs, |bs|)).0, m, bs, |bs|)
  {
    TruncateIs(a, m);
    var a1 := Step(a, Truncate(m)).0;
    WriteIs(a1, m, bs, |bs|);
    if bs != [] {
      var data := FileAt(Step(a1, Write(m, bs, |bs|)).0, m);
      assert data == bs;
    }
  }

  // ---- seeking

  /** A seek is accepted up to and including the end, and then the position is where it says. */
  lemma SeekIs(a: Abs, m: int, offset: nat)
    requires IsAt(a, m)
    ensures var (a', r) := Step(a, Seek(m, offset));
      && (r == Ok <==> offset <= |FileAt(a, m)|)
      && if r == Ok then IsAt(a', m) && Becomes(a, a', m, FileAt(a, m), offset) else r == SysErr && a' == a
  {
    StepKeepsAbsOk(a, Seek(m, offset));
    assert a.files[a.open[m].file := FileAt(a, m)] == a.files;
  }

  /** The last of two seeks counts. */
  lemma SeekAgain(a: Abs, m: int, p: nat, q: nat)
    requires IsAt(a, m) && p <= |FileAt(a, m)|
    ensures AbsOk(Step(a, Seek(m, p)).0)
    ensures q <= |FileAt(a, m)| ==> Step(Step(a, Seek(m, p)).0, Seek(m, q)) == Step(a, Seek(m, q))
  {
    SeekIs(a, m, p);
    SeekIs(a, m, q);
    var a1 := Step(a, Seek(m, p)).0;
    SeekIs(a1, m, q);
    assert a1.open[m := At(a.open[m].file, q)] == a.open[m := At(a.open[m].file, q)];
  }

  // ---- reading

  /** A read hands over the next bytes, as many as there are, and goes on past them; it is at the end
      of the file exactly if there are none. */
  lemma ReadIs(a: Abs, m: int, count: nat)
    requires IsAt(a, m) && count > 0
    ensures var (a', r) := Step(a, Read(m, count));
      var (data, pos) := (FileAt(a, m), PosAt(a, m));
      var n := Min(count, |data| - pos);
      && 0 <= n && Handed(r) == data[pos..pos + n] && (r == Eof <==> pos == |data|) && (pos < |data| ==> r.Bytes?)
      && IsAt(a', m) && Becomes(a, a', m, data, pos + n)
  {
    StepKeepsAbsOk(a, Read(m, count));
    assert a.files[a.open[m].file := FileAt(a, m)] == a.files;
    if PosAt(a, m) == |FileAt(a, m)| {
      assert a.open[m := At(a.open[m].file, PosAt(a, m))] == a.open;
    }
  }

  /** Two reads are one read. */
  lemma ReadsAddUp(a: Abs, m: int, n: nat, k: nat)
    requires IsAt(a, m) && n > 0 && k > 0
    ensures AbsOk(Step(a, Read(m, n)).0)
    ensures var (a1, r1) := Step(a, Read(m, n));
      var (a2, r2) := Step(a1, Read(m, k));
      var (a', r) := Step(a, Read(m, n + k));
      a2 == a' && Handed(r1) + Handed(r2) == Handed(r)
  {
    hide Step, AbsOk, Handed, Becomes;
    ReadIs(a, m, n);
    var a1 := Step(a, Read(m, n)).0;
    ReadIs(a1, m, k);
    ReadIs(a, m, n + k);
    ReadsOn(a, a1, Step(a1, Read(m, k)).0, m, PosAt(a1, m), PosAt(Step(a1, Read(m, k)).0, m));
  }

  /** Two changes of the position alone are one. */
  lemma ReadsOn(a: Abs, a1: Abs, a2: Abs, m: int, p: nat, q: nat)
    requires IsAt(a, m) && IsAt(a1, m) && Becomes(a, a1, m, FileAt(a, m), p) && Becomes(a1, a2, m, FileAt(a1, m), q)
    ensures FileAt(a1, m) == FileAt(a, m) && PosAt(a1, m) == p && Becomes(a, a2, m, FileAt(a, m), q)
    ensures 0 <= m < |a2.open| && a2.open[m].At? && a2.open[m].pos == q
  {
    assert a1.files == a.files;
  }

  /** Getting a character is reading one byte. */
  lemma GetcIsRead(a: Abs, m: int)
    requires IsAt(a, m)
    ensures var ((a1, c), (a2, r)) := (Step(a, Getc(m)), Step(a, Read(m, 1)));
      a1 == a2 && Handed(c) == Handed(r) && (c == Eof <==> r == Eof) && (c.Char? <==> r.Bytes?)
  {
    ReadIs(a, m, 1);
  }

  /** n times the same operation: the state, and all the bytes handed over. */
  function Times(a: Abs, op: Op, n: nat): (r: (Abs, seq<Byte>))
    requires AbsOk(a) && OpOk(a, op)
    ensures AbsOk(r.0) && |r.0.open| == |a.open|
  {
    if n == 0 then (a, [])
    else
      var (a1, bs) := Times(a, op, n - 1);
      StepKeepsAbsOk(a1, op);
      (Step(a1, op).0, bs + Handed(Step(a1, op).1))
  }

  /** Getting n characters is reading n bytes. */
  lemma {:induction false} GetcsAreRead(a: Abs, m: int, n: nat)
    requires IsAt(a, m) && n > 0
    ensures var (a', r) := Step(a, Read(m, n)); Times(a, Getc(m), n) == (a', Handed(r))
  {
    hide Step, AbsOk, Handed, Becomes;
    if n == 1 {
      GetcIsRead(a, m);
      assert [] + Handed(Step(a, Getc(m)).1) == Handed(Step(a, Read(m, 1)).1);
      assert Times(a, Getc(m), 0) == (a, []);
    } else {
      GetcsAreRead(a, m, n - 1);
      ReadIs(a, m, n - 1);
      GetcIsRead(Step(a, Read(m, n - 1)).0, m);
      ReadsAddUp(a, m, n - 1, 1);
    }
  }

  /** A seek to the beginning and a read of its length hand over the whole file. */
  lemma ReadWhole(a: Abs, m: int)
    requires IsAt(a, m) && FileAt(a, m) != []
    ensures AbsOk(Step(a, Seek(m, 0)).0)
    ensures Step(Step(a, Seek(m, 0)).0, Read(m, |FileAt(a, m)|)).1 == Bytes(FileAt(a, m))
  {
    SeekIs(a, m, 0);
    ReadIs(Step(a, Seek(m, 0)).0, m, |FileAt(a, m)|);
  }

  // ---- writing

  /** A write puts its bytes at the position, leaves all other bytes where they are, makes the file
      longer only as far as it must, and goes on behind what it has written. */
  lemma WriteIs(a: Abs, m: int, buff: seq<Byte>, count: nat)
    requires IsAt(a, m) && count <= |buff|
    ensures var (a', r) := Step(a, Write(m, buff, count));
      var (data, pos) := (FileAt(a, m), PosAt(a, m));
      && r == Count(count) && IsAt(a', m)
      && var data' := FileAt(a', m);
         && Becomes(a, a', m, data', pos + count) && |data'| == (if pos + count <= |data| then |data| else pos + count)
         && forall i :: 0 <= i < |data'| ==> data'[i] == if pos <= i < pos + count then buff[i - pos] else data[i]
  {
    var a' := Step(a, Write(m, buff, count)).0;
    StepKeepsAbsOk(a, Write(m, buff, count));
    if count == 0 {
      assert a.files[a.open[m].file := FileAt(a, m)] == a.files && a.open[m := At(a.open[m].file, PosAt(a, m))] == a.open;
    }
  }

  /** Two writes are one write. */
  lemma WritesAddUp(a: Abs, m: int, bs: seq<Byte>, cs: seq<Byte>)
    requires IsAt(a, m)
    ensures AbsOk(Step(a, Write(m, bs, |bs|)).0)
    ensures Step(Step(a, Write(m, bs, |bs|)).0, Write(m, cs, |cs|)).0 == Step(a, Write(m, bs + cs, |bs + cs|)).0
  {
    WriteIs(a, m, bs, |bs|);
    var a1 := Step(a, Write(m, bs, |bs|)).0;
    WriteIs(a1, m, cs, |cs|);
    WriteIs(a, m, bs + cs, |bs + cs|);
    var a2, a' := Step(a1, Write(m, cs, |cs|)).0, Step(a, Write(m, bs + cs, |bs + cs|)).0;
    assert FileAt(a2, m) == FileAt(a', m);
    assert a2.files == a'.files && a2.open == a'.open;
  }

  /** Putting a character is writing one byte. */
  lemma PutcIsWrite(a: Abs, m: int, ch: Byte)
    requires IsAt(a, m)
    ensures Step(a, Putc(m, ch)) == (Step(a, Write(m, [ch], 1)).0, Ok)
  {
    assert [ch][..1] == [ch];
  }

  // ---- failures

  /** On a closed device every operation fails and changes nothing; a transfer of no bytes does
      nothing, and one of fewer fails, before the device is looked at. */
  lemma Failures(a: Abs, op: Op)
    requires AbsOk(a) && OpOk(a, op)
    ensures (op.Read? || op.Write?) && op.count < 0 ==> Step(a, op) == (a, SysErr)
    ensures (op.Read? || op.Write?) && op.count == 0 ==> Step(a, op) == (a, Count(0))
    ensures a.open[op.Minor()].Closed? && ((op.Read? || op.Write?) ==> op.count > 0) ==> Step(a, op) == (a, SysErr)
    ensures Step(a, op).1 == SysErr ==> a.open[op.Minor()].Closed? || (op.Seek? && op.offset > |a.files[a.open[op.Minor()].file]|) || ((op.Read? || op.Write?) && op.count < 0)
  {
  }

  // ---- opening

  /** The directory has a file of this name. */
  ghost predicate Named(names: seq<Name>, name: seq<Byte>) { exists g :: 0 <= g < |names| && name + [0] <= names[g] }

  /** An open succeeds exactly if the name is short enough and the mode is one, some device is closed, and
      the file is there or not as the mode asks, with room in the directory for a new one; but never for
      the empty name while any file is open. It takes the first closed device, and the first file of the
      name, or a new one. */
  lemma OpenIs(names: seq<Name>, hs: seq<Handle>, name: seq<Byte>, mode: Mode)
    ensures var o := OpenOutcome(names, hs, name, mode);
      && (o.Opened? <==>
           && |name| < LF_NAME_LEN && mode.Mode? && !(name == [] && SomeOpen(hs)) && (exists i :: 0 <= i < |hs| && hs[i].Closed?)
           && if Named(names, name) then !mode.mustNotExist else !mode.mustExist && |names| < LF_NUM_DIR_ENT)
      && (o.Opened? ==> 0 <= o.dev < |hs| && hs[o.dev].Closed? && forall i :: 0 <= i < o.dev ==> hs[i].At?)
      && (o.Opened? ==> if Named(names, name) then 0 <= o.file < |names| && name + [0] <= names[o.file] && forall g :: 0 <= g < o.file ==> !(name + [0] <= names[g])
                        else o.file == |names|)
  {
    FindNameBefore(names, name, 0);
    FirstClosedBefore(hs, 0);
  }

  lemma {:induction false} FirstClosedBefore(hs: seq<Handle>, i: nat)
    requires i <= |hs|
    ensures var k := FirstClosed(hs, i);
      if k == -1 then forall j :: i <= j < |hs| ==> hs[j].At? else i <= k < |hs| && hs[k].Closed? && forall j :: i <= j < k ==> hs[j].At?
    decreases |hs| - i
  {
    if i < |hs| && hs[i].At? {
      FirstClosedBefore(hs, i + 1);
    }
  }
}
