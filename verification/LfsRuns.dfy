/** The main theorems of the local file system: whole runs of operations, restarting from the
    disk, and the rule that lfsopen does not keep. */
module LfsRuns {
  import opened LfsFormat
  import opened LfsDisk
  import opened BlockPool
  import opened LfsModel
  import opened LfsSteps
  import opened LfsReload
  import opened LfsSpec
  import opened LocalFileSystem
  import opened LfsRoom
  import LfsCreate

  /** The files after an operation fit on the disk. */
  ghost predicate StepFits(nib: int, sectors: int, a: Abs, op: Op)
    requires AbsOk(a) && OpOk(a, op)
  {
    Fits(nib, sectors, Step(a, op).0.files)
  }

  /** An operation that writes n bytes past the room for them panics; what it would leave does not fit. */
  lemma WriteFits(fs: FileSystem, m: int, bs: seq<Byte>)
    requires fs.Valid() && 0 <= m < |fs.tab| && fs.tab[m].used && bs != []
    ensures AbsOk(fs.View()) && fs.View().open[m].At?
    ensures fs.OverFull(m, |bs|) <==> !Fits(fs.st.nib, |fs.st.disk|, Written(fs.View(), m, bs).files)
  {
    fs.ViewOk();
    assert ValidSpelledOut(0);
    var a := fs.View();
    var f := a.open[m].file;
    OutOfSpaceIs(fs.st, f, Overwrite(a.files[f], a.open[m].pos, bs));
  }

  /** Every other operation leaves files that fit. */
  lemma OtherFits(fs: FileSystem, op: Op)
    requires fs.Valid() && AbsOk(fs.View()) && OpOk(fs.View(), op) && (op.Putc? || op.Write? ==> !fs.tab[op.m].used || (op.Write? && op.count <= 0))
    ensures StepFits(fs.st.nib, |fs.st.disk|, fs.View(), op)
  {
    fs.ViewOk();
    assert ValidSpelledOut(0);
    FreeBlocks(fs.st);
    if op.Truncate? && fs.View().open[op.m].At? {
      FitsStill(fs.st.nib, |fs.st.disk|, fs.st.data, fs.View().open[op.m].file, []);
    }
  }

  /** One operation. It panics exactly if the files as it would leave them need more blocks than
      the disk has. */
  method Do(fs: FileSystem, op: Op) returns (r: Ret)
    requires fs.Valid() && OpOk(fs.View(), op)
    modifies fs, fs.tab
    ensures old(AbsOk(fs.View()))
    ensures r == Panic <==> !StepFits(old(fs.st).nib, |old(fs.st).disk|, old(fs.View()), op)
    ensures r != Panic ==> fs.Valid() && Steady(old(fs.st), fs.st) && (fs.View(), r) == Step(old(fs.View()), op)
    ensures r != Panic ==> fs.Told() == (old(fs.Told()) || Resized(old(fs.st).data, fs.st.data))
  {
    fs.ViewOk();
    if (op.Putc? || op.Write?) && fs.tab[op.m].used && (op.Write? ==> op.count > 0) {
      WriteFits(fs, op.m, if op.Putc? then [op.ch] else op.buff[..op.count]);
    } else {
      OtherFits(fs, op);
    }
    match op
    case Getc(m) => r := fs.Lflgetc(m);
    case Putc(m, ch) => r := fs.Lflputc(m, ch);
    case Seek(m, offset) => r := fs.Lflseek(m, offset);
    case Read(m, count) => r := fs.Lflread(m, count);
    case Write(m, buff, count) => r := fs.Lflwrite(m, buff, count);
    case Truncate(m) => r := fs.Lflcontrol(m, LF_CTL_TRUNC);
  }

  /** How many operations come before the first that leaves files that do not fit. */
  ghost function FitSteps(nib: int, sectors: int, a: Abs, ops: seq<Op>): (n: nat)
    requires AbsOk(a) && forall i :: 0 <= i < |ops| ==> OpOk(a, ops[i])
    ensures n <= |ops|
  {
    if ops == [] then 0
    else
      var k := |ops| - 1;
      var n := FitSteps(nib, sectors, a, ops[..k]);
      if n < k then n else if Fits(nib, sectors, Steps(a, ops).0.files) then k + 1 else k
  }

  lemma {:induction false} FitStepsIs(nib: int, sectors: int, a: Abs, ops: seq<Op>)
    requires AbsOk(a) && (forall i :: 0 <= i < |ops| ==> OpOk(a, ops[i]))
    ensures var n := FitSteps(nib, sectors, a, ops);
      && (forall j :: 0 < j <= n ==> Fits(nib, sectors, Steps(a, ops[..j]).0.files))
      && (n < |ops| ==> !Fits(nib, sectors, Steps(a, ops[..n + 1]).0.files))
  {
    hide AbsOk, OpOk, Fits;
    if ops != [] {
      var k, n := |ops| - 1, FitSteps(nib, sectors, a, ops);
      FitStepsIs(nib, sectors, a, ops[..k]);
      assert ops[..k + 1] == ops;
      forall j | 0 < j <= n
        ensures Fits(nib, sectors, Steps(a, ops[..j]).0.files)
      {
        assert j <= k ==> ops[..k][..j] == ops[..j];
      }
      assert n < k ==> ops[..k][..n + 1] == ops[..n + 1];
    }
  }

  /** Operations past one that does not fit do not matter. */
  lemma {:induction false} FitStepsStop(nib: int, sectors: int, a: Abs, ops: seq<Op>, k: nat)
    requires AbsOk(a) && (forall i :: 0 <= i < |ops| ==> OpOk(a, ops[i])) && k < |ops|
    requires FitSteps(nib, sectors, a, ops[..k]) == k && !Fits(nib, sectors, Steps(a, ops[..k + 1]).0.files)
    ensures FitSteps(nib, sectors, a, ops) == k
  {
    hide AbsOk, OpOk, Fits;
    if k == |ops| - 1 {
      assert ops[..k + 1] == ops;
    } else {
      var n := |ops| - 1;
      assert ops[..n][..k] == ops[..k] && ops[..n][..k + 1] == ops[..k + 1];
      FitStepsStop(nib, sectors, a, ops[..n], k);
    }
  }

  /** Some operation of the run changes the length of a file. */
  ghost predicate ResizedIn(a: Abs, ops: seq<Op>)
    requires AbsOk(a) && forall i :: 0 <= i < |ops| ==> OpOk(a, ops[i])
  {
    ops != [] && (ResizedIn(a, ops[..|ops| - 1]) || Resized(Steps(a, ops[..|ops| - 1]).0.files, Steps(a, ops).0.files))
  }

  lemma StepsNone(nib: int, sectors: int, a: Abs, ops: seq<Op>)
    requires AbsOk(a) && (forall j :: 0 <= j < |ops| ==> OpOk(a, ops[j]))
    ensures Steps(a, ops[..0]) == (a, []) && !ResizedIn(a, ops[..0]) && FitSteps(nib, sectors, a, ops[..0]) == 0
  {
  }

  /** One operation more. */
  lemma StepsMore(nib: int, sectors: int, a: Abs, ops: seq<Op>, i: nat)
    requires AbsOk(a) && (forall j :: 0 <= j < |ops| ==> OpOk(a, ops[j])) && i < |ops|
    ensures var a1 := Steps(a, ops[..i]).0;
      && AbsOk(a1) && OpOk(a1, ops[i])
      && Steps(a, ops[..i + 1]) == (Step(a1, ops[i]).0, Steps(a, ops[..i]).1 + [Step(a1, ops[i]).1])
      && ResizedIn(a, ops[..i + 1]) == (ResizedIn(a, ops[..i]) || Resized(a1.files, Step(a1, ops[i]).0.files))
      && (FitSteps(nib, sectors, a, ops[..i]) == i ==>
            FitSteps(nib, sectors, a, ops[..i + 1]) == if StepFits(nib, sectors, a1, ops[i]) then i + 1 else i)
  {
    var u := ops[..i + 1];
    assert u[..i] == ops[..i] && u[i] == ops[i];
    assert OpOk(a, ops[i]);
  }

  /** Every sequence of operations returns what it returns on plain byte sequences with positions,
      and leaves those byte sequences, up to the first operation that leaves files too large for
      the disk, which panics. */
  method Run(fs: FileSystem, ops: seq<Op>) returns (rs: seq<Ret>)
    requires fs.Valid() && forall i :: 0 <= i < |ops| ==> OpOk(fs.View(), ops[i])
    modifies fs, fs.tab
    ensures old(AbsOk(fs.View()))
    ensures var a, n := old(fs.View()), FitSteps(old(fs.st).nib, |old(fs.st).disk|, old(fs.View()), ops);
      && rs == Steps(a, ops[..n]).1 + (if n < |ops| then [Panic] else [])
      && (n == |ops| ==> fs.Valid() && Steady(old(fs.st), fs.st) && fs.View() == Steps(a, ops).0)
      && (n == |ops| ==> fs.Told() == (old(fs.Told()) || ResizedIn(a, ops)))
  {
    hide Steps, FitSteps, ResizedIn, Step, Fits, AbsOk, Resized;
    fs.ViewOk();
    ghost var a, nib, sectors := fs.View(), fs.st.nib, |fs.st.disk|;
    rs := [];
    var i := 0;
    StepsNone(nib, sectors, a, ops);
    while i < |ops|
      invariant 0 <= i <= |ops| && FitSteps(nib, sectors, a, ops[..i]) == i
      invariant fs.Valid() && Steady(old(fs.st), fs.st)
      invariant (fs.View(), rs) == Steps(a, ops[..i]) && fs.Told() == (old(fs.Told()) || ResizedIn(a, ops[..i]))
    {
      StepsMore(nib, sectors, a, ops, i);
      var r := Do(fs, ops[i]);
      rs := rs + [r];
      if r == Panic {
        FitStepsStop(nib, sectors, a, ops, i);
        return;
      }
      i := i + 1;
    }
    assert ops[..i] == ops;
  }

  /** The snapshot a restart finds: the files that reached the directory on disk. */
  lemma Restarted(fs: FileSystem) returns (s: Fs)
    requires fs.Valid() && !fs.dirdirty && forall i :: 0 <= i < |fs.tab| ==> !fs.tab[i].used
    ensures Views(fs.disk, s) && Inv(s) && s.dir == s.ddir && DirSynced(s)
    ensures forall g :: 0 <= g < |s.cbs| ==> !s.cbs[g].ibdirty && !s.cbs[g].dbdirty
    ensures |s.data| <= |fs.st.data| && s.data == fs.st.data[..|s.data|]
    ensures forall g :: |s.data| <= g < |fs.st.data| ==> fs.st.data[g] == []
    ensures |s.data| == DecodeDir(fs.disk[0]).nfiles && |NamesOf(fs.st.dir)| == |fs.st.data| && NamesOf(s.dir) == NamesOf(fs.st.dir)[..|s.data|]
  {
    assert ValidSpelledOut(0);
    var st := fs.st;
    var n := st.ddir.nfiles;
    s := st.(dir := st.ddir, ip := st.ip.(lists := st.ip.lists[..n]), dp := st.dp.(lists := st.dp.lists[..n]),
             data := st.data[..n], cbs := st.cbs[..n]);
    assert st.ddir == DecodeDir(fs.disk[0]);
    DecodedDirWf(fs.disk[0]);
    DroppedSound(st, s);
    forall g | 0 <= g < |s.data|
      ensures Settled(s, g)
    {
      assert Settled(st, g);
    }
  }

  /** Files that were never written own no block, so they can be dropped. */
  lemma DroppedSound(st: Fs, s: Fs)
    requires Inv(st) && DirSynced(st)
    requires var n := st.ddir.nfiles;
      s == st.(dir := st.ddir, ip := st.ip.(lists := st.ip.lists[..n]), dp := st.dp.(lists := st.dp.lists[..n]),
               data := st.data[..n], cbs := st.cbs[..n])
    requires WfDir(st.ddir)
    ensures Sound(s)
  {
    assert SoundSpelledOut(st);
    var n := st.ddir.nfiles;
    forall f | n <= f < |st.data|
      ensures st.ip.lists[f] == [] && st.dp.lists[f] == []
    {
      assert Settled(st, f);
    }
    ResizeKeeps(st.ip, s.ip.lists, 0, 7 * st.nib);
    ResizeKeeps(st.dp, s.dp.lists, st.nib + 1, |st.disk|);
    ShapeWith(st, s);
    ListsWith(st, s);
    forall g | 0 <= g < |s.data|
      ensures EntryOk(s, g) && FileAt(s, g)
    {
      assert FileAt(st, g) && EntryOk(st, g);
    }
    assert Core(s);
  }

  /** Once every file is closed, a system started afresh on the same disk shows the same bytes,
      short of trailing files that were created and never written. */
  method Restart(fs: FileSystem, nlfl: nat) returns (fs': FileSystem)
    requires fs.Valid() && !fs.dirdirty && forall i :: 0 <= i < |fs.tab| ==> !fs.tab[i].used
    ensures fs'.Valid() && fs'.disk == fs.disk && |fs'.tab| == nlfl
    ensures var a, a' := fs.View(), fs'.View();
      && |fs.disk| > 0 && |a'.files| == DecodeDir(fs.disk[0]).nfiles <= |a.files| && a'.files == a.files[..|a'.files|]
      && (forall g :: |a'.files| <= g < |a.files| ==> a.files[g] == [])
      && (forall m :: 0 <= m < nlfl ==> a'.open[m] == Closed)
    ensures |fs'.st.data| <= |NamesOf(fs.st.dir)| && NamesOf(fs'.st.dir) == NamesOf(fs.st.dir)[..|fs'.st.data|]
  {
    ghost var s := Restarted(fs);
    fs' := new FileSystem(fs.disk, nlfl, s);
  }

  /** A new, empty file, open at device m. */
  function WithNew(a: Abs, m: int): Abs
    requires 0 <= m < |a.open|
  {
    Abs(a.files + [[]], a.open[m := At(|a.files|, 0)])
  }

  /** No result of an operation on byte sequences is a panic. */
  lemma {:induction false} NoPanics(a: Abs, ops: seq<Op>)
    requires AbsOk(a) && forall i :: 0 <= i < |ops| ==> OpOk(a, ops[i])
    ensures Panic !in Steps(a, ops).1
  {
    if ops != [] {
      NoPanics(a, ops[..|ops| - 1]);
    }
  }

  /** There is a name for every file, and no device has a file open that is not there. */
  lemma NamesAre(fs: FileSystem)
    requires fs.Valid()
    ensures |NamesOf(fs.st.dir)| == |fs.st.data| && !IsOpen(fs.Open(), |fs.st.data|)
  {
    fs.ViewOk();
    assert ValidSpelledOut(0);
  }

  /** A file is created, any operations follow, on any devices, and the file is closed. It is in the
      directory on disk then exactly if the directory in memory was already marked as changed before
      the file was created, or some operation changed the length of some file. */
  method CreateAndClose(fs: FileSystem, name: seq<Byte>, mode: Mode, ops: seq<Op>) returns (r: OpenRet, panic: bool)
    requires fs.Valid() && 0 !in name && FindName(NamesOf(fs.st.dir), name, 0) == |NamesOf(fs.st.dir)|
    requires forall i :: 0 <= i < |ops| ==> OpOk(fs.View(), ops[i])
    modifies fs, fs.tab
    ensures r == OpenOutcome(old(NamesOf(fs.st.dir)), old(fs.Open()), name, mode)
    ensures r.OpenErr? ==> fs.Valid() && fs.View() == old(fs.View()) && !panic
    ensures r.Opened? ==> 0 <= r.dev < |fs.tab| && r.file == |old(fs.st).data| && AbsOk(WithNew(old(fs.View()), r.dev))
    ensures r.Opened? ==> forall i :: 0 <= i < |ops| ==> OpOk(WithNew(old(fs.View()), r.dev), ops[i])
    ensures r.Opened? ==>
              var a := WithNew(old(fs.View()), r.dev);
              && panic == (FitSteps(old(fs.st).nib, |old(fs.st).disk|, a, ops) < |ops|)
              && (!panic ==> fs.Valid() && !fs.dirdirty && fs.View() == Steps(a, ops).0.(open := Steps(a, ops).0.open[r.dev := Closed]))
              && (!panic ==> |fs.disk| > 0 && (r.file < DecodeDir(fs.disk[0]).nfiles <==> old(fs.dirdirty) || ResizedIn(a, ops)))
  {
    hide FindName, FitSteps, Steps, ResizedIn;
    fs.ViewOk();
    NamesAre(fs);
    ghost var a0 := fs.View();
    FirstClosedIn(fs.Open(), 0);
    panic := false;
    r := fs.Lfsopen(name, mode);
    if r == OpenErr {
      return;
    }
    fs.ViewOk();
    ghost var a := fs.View();
    assert a == WithNew(a0, r.dev);
    NoPanics(a, ops[..FitSteps(fs.st.nib, |fs.st.disk|, a, ops)]);
    var rs := Run(fs, ops);
    panic := Panic in rs;
    if panic {
      return;
    }
    assert ops[..|ops|] == ops;
    FileStays(a, ops, r.dev);
    fs.ViewOk();
    var _ := fs.Lflclose(r.dev);
    assert ValidSpelledOut(0);
  }

  lemma StepStays(a: Abs, op: Op, m: int)
    requires AbsOk(a) && OpOk(a, op) && 0 <= m < |a.open| && a.open[m].At?
    ensures var a' := Step(a, op).0; |a'.open| == |a.open| && a'.open[m].At? && a'.open[m].file == a.open[m].file && |a'.files| == |a.files|
  {
  }

  /** Operations leave files and devices where they are. */
  lemma {:induction false} FileStays(a: Abs, ops: seq<Op>, m: int)
    requires AbsOk(a) && (forall i :: 0 <= i < |ops| ==> OpOk(a, ops[i])) && 0 <= m < |a.open| && a.open[m].At?
    ensures var a' := Steps(a, ops).0; |a'.open| == |a.open| && a'.open[m].At? && a'.open[m].file == a.open[m].file && |a'.files| == |a.files|
  {
    hide AbsOk, OpOk, Step;
    if ops != [] {
      var k := |ops| - 1;
      FileStays(a, ops[..k], m);
      StepsMore(0, 0, a, ops, k);
      assert ops[..k + 1] == ops;
      StepStays(Steps(a, ops[..k]).0, ops[k], m);
    }
  }

  /** A system over a new disk of eight sectors, one of them for index blocks. */
  method NewSystem(nlfl: nat) returns (fs: FileSystem)
    ensures fresh(fs) && fresh(fs.tab) && fs.Valid() && !fs.dirdirty && |fs.tab| == nlfl
    ensures fs.View() == Abs([], seq(nlfl, i => Closed)) && fs.st.data == [] && NamesOf(fs.st.dir) == []
  {
    var disk := seq(8, i => Fill(0));
    var ok, formatted;
    ghost var s;
    ok, formatted, s := LfsCreate.Lfscreate(disk, 7);
    fs := new FileSystem(formatted, nlfl, s);
    NamesAre(fs);
    assert ValidSpelledOut(0);
  }

  /** On a new disk a file called a is created and closed, and then the system starts afresh: the
      file is gone. */
  method LostFile() returns (fs: FileSystem, fs': FileSystem)
    ensures fs.Valid() && fs.View() == Abs([[]], [Closed])
    ensures fs'.Valid() && fs'.View() == Abs([], [Closed]) && fs'.disk == fs.disk
  {
    fs := NewSystem(1);
    var r, panic := CreateAndClose(fs, [97], Mode(3, false, false), []);
    fs.ViewOk();
    assert fs.View().open == [Closed];
    fs' := Restart(fs, 1);
    assert fs'.View().open == [Closed] && fs'.View().files == [];
  }

  /** On a new disk a file called a is opened twice: the two devices share it from then on. */
  method SharedFile() returns (fs: FileSystem, first: OpenRet, second: OpenRet)
    ensures first == Opened(0, 0) && second == Opened(1, 0) && !fs.Valid() && fs.View() == Abs([[]], [At(0, 0), At(0, 0)])
  {
    fs := NewSystem(2);
    var mode := Mode(3, false, false);
    assert fs.Open() == [Closed, Closed];
    first := fs.Lfsopen([97], mode);
    NamesAre(fs);
    assert fs.Open() == [At(0, 0), Closed];
    assert FirstClosed(fs.Open(), 0) == 1;
    second := fs.Lfsopen([97], mode);
  }
}
