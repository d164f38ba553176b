/** What a user of the file system sees: byte sequences, and for every pseudo-device the file it
    has open and a position. */
module LfsSpec {
  import opened LfsFormat

  datatype Ret = Ok | SysErr | Eof | Char(ch: Byte) | Count(n: int) | Bytes(bs: seq<Byte>) | Panic

  datatype Handle = Closed | At(file: nat, pos: nat)

  datatype Abs = Abs(files: seq<seq<Byte>>, open: seq<Handle>)

  datatype Op =
    | Getc(m: int)
    | Putc(m: int, ch: Byte)
    | Seek(m: int, offset: nat)
    | Read(m: int, count: int)
    | Write(m: int, buff: seq<Byte>, count: int)
    | Truncate(m: int)
  {
    function Minor(): int { m }
  }

  /** A file's bytes after buff is written at pos, overwriting and then appending. */
  function Overwrite(data: seq<Byte>, pos: nat, buff: seq<Byte>): seq<Byte>
    requires pos <= |data|
  {
    if pos + |buff| <= |data| then data[..pos] + buff + data[pos + |buff|..] else data[..pos] + buff
  }

  /** Positions lie inside their files, and no file is open twice. */
  ghost predicate AbsOk(a: Abs) {
    && (forall m :: 0 <= m < |a.open| && a.open[m].At? ==>
          a.open[m].file < |a.files| && a.open[m].pos <= |a.files[a.open[m].file]|)
    && (forall m, n :: 0 <= m < |a.open| && 0 <= n < |a.open| && m != n && a.open[m].At? && a.open[n].At? ==>
          a.open[m].file != a.open[n].file)
  }

  /** The device exists, and a buffer to write from holds as many bytes as the call says. */
  predicate OpOk(a: Abs, op: Op) {
    0 <= op.Minor() < |a.open| && (op.Write? ==> op.count <= |op.buff|)
  }

  function Min(a: int, b: int): int { if a <= b then a else b }

  // ---- one function per operation: the new abstract state and the value returned

  function StepGetc(a: Abs, m: int): (Abs, Ret)
    requires AbsOk(a) && 0 <= m < |a.open|
  {
    var o := a.open[m];
    if o.Closed? then (a, SysErr)
    else if o.pos >= |a.files[o.file]| then (a, Eof)
    else (a.(open := a.open[m := At(o.file, o.pos + 1)]), Char(a.files[o.file][o.pos]))
  }

  /** The abstract state after bs has been written at device m's position. */
  function Written(a: Abs, m: int, bs: seq<Byte>): Abs
    requires AbsOk(a) && 0 <= m < |a.open| && a.open[m].At?
  {
    var o := a.open[m];
    Abs(a.files[o.file := Overwrite(a.files[o.file], o.pos, bs)], a.open[m := At(o.file, o.pos + |bs|)])
  }

  function StepPutc(a: Abs, m: int, ch: Byte): (Abs, Ret)
    requires AbsOk(a) && 0 <= m < |a.open|
  {
    if a.open[m].Closed? then (a, SysErr) else (Written(a, m, [ch]), Ok)
  }

  function StepSeek(a: Abs, m: int, offset: nat): (Abs, Ret)
    requires AbsOk(a) && 0 <= m < |a.open|
  {
    var o := a.open[m];
    if o.Closed? || offset > |a.files[o.file]| then (a, SysErr)
    else (a.(open := a.open[m := At(o.file, offset)]), Ok)
  }

  function StepRead(a: Abs, m: int, count: int): (Abs, Ret)
    requires AbsOk(a) && 0 <= m < |a.open|
  {
    var o := a.open[m];
    if count < 0 then (a, SysErr)
    else if count == 0 then (a, Count(0))
    else if o.Closed? then (a, SysErr)
    else
      var n := Min(count, |a.files[o.file]| - o.pos);
      if n == 0 then (a, Eof)
      else (a.(open := a.open[m := At(o.file, o.pos + n)]), Bytes(a.files[o.file][o.pos..o.pos + n]))
  }

  function StepWrite(a: Abs, m: int, buff: seq<Byte>, count: int): (Abs, Ret)
    requires AbsOk(a) && 0 <= m < |a.open| && count <= |buff|
  {
    if count < 0 then (a, SysErr)
    else if count == 0 then (a, Count(0))
    else if a.open[m].Closed? then (a, SysErr)
    else (Written(a, m, buff[..count]), Count(count))
  }

  function StepTruncate(a: Abs, m: int): (Abs, Ret)
    requires AbsOk(a) && 0 <= m < |a.open|
  {
    var o := a.open[m];
    if o.Closed? then (a, SysErr)
    else if a.files[o.file] == [] then (a, Ok)
    else (Abs(a.files[o.file := []], a.open[m := At(o.file, 0)]), Ok)
  }

  function Step(a: Abs, op: Op): (Abs, Ret)
    requires AbsOk(a) && OpOk(a, op)
  {
    match op
    case Getc(m) => StepGetc(a, m)
    case Putc(m, ch) => StepPutc(a, m, ch)
    case Seek(m, offset) => StepSeek(a, m, offset)
    case Read(m, count) => StepRead(a, m, count)
    case Write(m, buff, count) => StepWrite(a, m, buff, count)
    case Truncate(m) => StepTruncate(a, m)
  }

  /** Writing one byte after writing some is writing them all. */
  lemma OverwriteOneMore(data: seq<Byte>, pos: nat, buff: seq<Byte>, ch: Byte)
    requires pos <= |data|
    ensures pos + |buff| <= |Overwrite(data, pos, buff)|
    ensures Overwrite(Overwrite(data, pos, buff), pos + |buff|, [ch]) == Overwrite(data, pos, buff + [ch])
  {
    var one, n := Overwrite(data, pos, buff), pos + |buff|;
    assert one[..n] == data[..pos] + buff;
    if n < |data| {
      assert one[n + 1..] == data[n + 1..];
      assert data[..pos] + buff + [ch] == data[..pos] + (buff + [ch]);
    }
  }

  lemma PutMore(a: Abs, m: int, bs: seq<Byte>, ch: Byte)
    requires AbsOk(a) && 0 <= m < |a.open| && a.open[m].At? && AbsOk(Written(a, m, bs))
    ensures StepPutc(Written(a, m, bs), m, ch) == (Written(a, m, bs + [ch]), Ok)
    ensures var o := a.open[m]; |Written(a, m, bs).files[o.file]| == if o.pos + |bs| <= |a.files[o.file]| then |a.files[o.file]| else o.pos + |bs|
  {
    var o, w, w' := a.open[m], Written(a, m, bs), Written(Written(a, m, bs), m, [ch]);
    OverwriteOneMore(a.files[o.file], o.pos, bs, ch);
    assert w'.files == Written(a, m, bs + [ch]).files && w'.open == Written(a, m, bs + [ch]).open;
  }

  lemma EmptyWrite(a: Abs, m: int)
    requires AbsOk(a) && 0 <= m < |a.open|
    ensures a.open[m].At? ==> Written(a, m, []) == a
  {
    if a.open[m].At? {
      var o := a.open[m];
      assert Overwrite(a.files[o.file], o.pos, []) == a.files[o.file];
      assert a.open[m := At(o.file, o.pos + 0)] == a.open;
    }
  }

  /** The operations keep positions inside their files. */
  lemma StepKeepsAbsOk(a: Abs, op: Op)
    requires AbsOk(a) && OpOk(a, op)
    ensures AbsOk(Step(a, op).0)
  {
  }

  // ---- opening

  /** What lfgetmode makes of the mode string: an error, or the access bits and whether the file
      must exist (o) or must not (n). */
  datatype Mode = BadMode | Mode(rw: int, mustExist: bool, mustNotExist: bool)

  datatype OpenRet = OpenErr | Opened(dev: int, file: int)

  /** The first closed device at or after i, or -1. */
  function FirstClosed(hs: seq<Handle>, i: nat): int
    requires i <= |hs|
    decreases |hs| - i
  {
    if i == |hs| then -1 else if hs[i].Closed? then i else FirstClosed(hs, i + 1)
  }

  /** The first name at or after i that reads `name` up to its null byte, or the number of names. */
  function FindName(names: seq<Name>, name: seq<Byte>, i: nat): int
    requires i <= |names|
    decreases |names| - i
  {
    if i == |names| then i else if name + [0] <= names[i] then i else FindName(names, name, i + 1)
  }

  ghost predicate SomeOpen(hs: seq<Handle>) { exists i :: 0 <= i < |hs| && hs[i].At? }

  ghost predicate IsOpen(hs: seq<Handle>, file: int) { exists i :: 0 <= i < |hs| && hs[i].At? && hs[i].file == file }

  /** Which device and which directory entry lfsopen picks. The test for a file that is already
      open never fires for a nonempty name: lfsopen records every name as empty. */
  ghost function OpenOutcome(names: seq<Name>, hs: seq<Handle>, name: seq<Byte>, mode: Mode): OpenRet {
    if |name| >= LF_NAME_LEN || mode.BadMode? then OpenErr
    else if name == [] && SomeOpen(hs) then OpenErr
    else if FirstClosed(hs, 0) == -1 then OpenErr
    else
      var g := FindName(names, name, 0);
      if g == |names| then
        if mode.mustExist || |names| >= LF_NUM_DIR_ENT then OpenErr else Opened(FirstClosed(hs, 0), g)
      else
        if mode.mustNotExist then OpenErr else Opened(FirstClosed(hs, 0), g)
  }

  lemma {:induction false} FirstClosedIs(hs: seq<Handle>, i: nat, k: int)
    requires i <= |hs|
    requires if k == -1 then forall j :: i <= j < |hs| ==> hs[j].At?
             else i <= k < |hs| && hs[k].Closed? && forall j :: i <= j < k ==> hs[j].At?
    ensures FirstClosed(hs, i) == k
    decreases |hs| - i
  {
    if i < |hs| && hs[i].At? {
      FirstClosedIs(hs, i + 1, k);
    }
  }

  lemma {:induction false} FirstClosedIn(hs: seq<Handle>, i: nat)
    requires i <= |hs|
    ensures FirstClosed(hs, i) == -1 || (i <= FirstClosed(hs, i) < |hs| && hs[FirstClosed(hs, i)].Closed?)
    decreases |hs| - i
  {
    if i < |hs| && hs[i].At? {
      FirstClosedIn(hs, i + 1);
    }
  }

  lemma {:induction false} FindNameIs(names: seq<Name>, name: seq<Byte>, i: nat, k: int)
    requires i <= k <= |names| && (k < |names| ==> name + [0] <= names[k])
    requires forall j :: i <= j < k ==> !(name + [0] <= names[j])
    ensures FindName(names, name, i) == k
    decreases |names| - i
  {
    if i < k {
      FindNameIs(names, name, i + 1, k);
    }
  }

  lemma {:induction false} FirstClosedMisses(hs: seq<Handle>, i: nat, j: nat)
    requires i <= j < |hs| && hs[j].Closed?
    ensures FirstClosed(hs, i) != -1
    decreases j - i
  {
    if i < j && hs[i].At? {
      FirstClosedMisses(hs, i + 1, j);
    }
  }

  lemma {:induction false} FindNameBefore(names: seq<Name>, name: seq<Byte>, i: nat)
    requires i <= |names|
    ensures var g := FindName(names, name, i);
      && i <= g <= |names| && (g < |names| ==> name + [0] <= names[g])
      && forall j :: i <= j < g ==> !(name + [0] <= names[j])
    decreases |names| - i
  {
    if i < |names| && !(name + [0] <= names[i]) {
      FindNameBefore(names, name, i + 1);
    }
  }

  /** The names after lfsopen has opened file g: the same, or one more. */
  ghost predicate NamesAfter(names: seq<Name>, name: seq<Byte>, g: int, names': seq<Name>) {
    if g < |names| then names' == names
    else g == |names| && |names'| == g + 1 && names'[..g] == names && name + [0] <= names'[g]
  }

  /** The single-open rule fails: a file that lfsopen has just opened, or created, under a nonempty
      name is opened again, on another device, by the same call, exactly when any device is still
      closed and the mode does not ask for a new file. */
  lemma OpensAgain(names: seq<Name>, hs: seq<Handle>, name: seq<Byte>, mode: Mode, m: int, g: int, names': seq<Name>)
    requires name != [] && OpenOutcome(names, hs, name, mode) == Opened(m, g) && NamesAfter(names, name, g, names')
    ensures 0 <= m < |hs| && 0 <= g
    ensures var again := OpenOutcome(names', hs[m := At(g, 0)], name, mode);
      if !mode.mustNotExist && exists j :: 0 <= j < |hs| && j != m && hs[j].Closed?
      then again.Opened? && again.dev != m && again.file == g
      else again == OpenErr
  {
    FirstClosedIn(hs, 0);
    FindNameBefore(names, name, 0);
    var hs' := hs[m := At(g, 0)];
    FirstClosedIn(hs', 0);
    forall j | 0 <= j < |hs| && j != m && hs[j].Closed?
      ensures FirstClosed(hs', 0) != -1
    {
      FirstClosedMisses(hs', 0, j);
    }
    assert FirstClosed(hs', 0) != -1 ==> hs[FirstClosed(hs', 0)].Closed?;
    forall j | 0 <= j < g
      ensures !(name + [0] <= names'[j])
    {
      assert names'[j] == names[j];
    }
    FindNameIs(names', name, 0, g);
  }

  // ---- sequences of operations

  /** The state and the returned values after a sequence of operations. */
  function Steps(a: Abs, ops: seq<Op>): (r: (Abs, seq<Ret>))
    requires AbsOk(a) && forall i :: 0 <= i < |ops| ==> OpOk(a, ops[i])
    ensures AbsOk(r.0) && |r.0.open| == |a.open| && |r.1| == |ops|
  {
    if ops == [] then (a, [])
    else
      var (a1, rs) := Steps(a, ops[..|ops| - 1]);
      var op := ops[|ops| - 1];
      assert OpOk(a, op);
      StepKeepsAbsOk(a1, op);
      var (a2, r) := Step(a1, op);
      (a2, rs + [r])
  }

  /** An operation touches no file but the one open at its device, and no other position. */
  lemma StepFrame(a: Abs, op: Op)
    requires AbsOk(a) && OpOk(a, op)
    ensures var a' := Step(a, op).0;
      && |a'.files| == |a.files| && |a'.open| == |a.open|
      && (forall n :: 0 <= n < |a.open| && n != op.Minor() ==> a'.open[n] == a.open[n])
      && (forall f :: 0 <= f < |a.files| && !(a.open[op.Minor()].At? && a.open[op.Minor()].file == f) ==> a'.files[f] == a.files[f])
  {
  }

  /** What is written at a position can be read back from it. */
  lemma ReadAfterWrite(a: Abs, m: int, buff: seq<Byte>)
    requires AbsOk(a) && 0 <= m < |a.open| && a.open[m].At? && buff != []
    ensures AbsOk(StepWrite(a, m, buff, |buff|).0)
    ensures AbsOk(StepSeek(StepWrite(a, m, buff, |buff|).0, m, a.open[m].pos).0)
    ensures StepRead(StepSeek(StepWrite(a, m, buff, |buff|).0, m, a.open[m].pos).0, m, |buff|).1 == Bytes(buff)
  {
    var o, a1 := a.open[m], StepWrite(a, m, buff, |buff|).0;
    StepKeepsAbsOk(a, Write(m, buff, |buff|));
    StepKeepsAbsOk(a1, Seek(m, o.pos));
    assert buff[..|buff|] == buff;
    assert a1.files[o.file][o.pos..o.pos + |buff|] == buff;
  }
}
