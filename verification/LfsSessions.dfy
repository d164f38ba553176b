/** Whole sessions of the local file system: files are created, opened, used and closed in any order. */
module LfsSessions {
  import opened LfsFormat
  import opened LfsModel
  import opened LfsSteps
  import opened LfsSpec
  import opened LocalFileSystem
  import opened LfsRoom
  import opened LfsRuns

  /** What a user sees: the names of the files, their bytes, and what every device has open. */
  datatype User = User(names: seq<seq<Byte>>, abs: Abs)

  datatype Call = Open(name: seq<Byte>, mode: Mode) | Close(m: int) | Use(op: Op)

  datatype Answer = Opening(open: OpenRet) | Answer(ret: Ret)

  // ---- names

  /** A name up to its null byte. */
  function Text(n: seq<Byte>): seq<Byte> {
    if n == [] || n[0] == 0 then [] else [n[0]] + Text(n[1..])
  }

  lemma {:induction false} TextIs(n: seq<Byte>, name: seq<Byte>)
    requires |name| < |n| && 0 !in name
    ensures name + [0] <= n <==> Text(n) == name
  {
    if name == [] {
      assert [] + [0] <= n <==> n[0] == 0;
    } else {
      assert name == [name[0]] + name[1..] && (name + [0])[1..] == name[1..] + [0];
      TextIs(n[1..], name[1..]);
      assert n == [n[0]] + n[1..];
      assert name + [0] <= n <==> n[0] == name[0] && name[1..] + [0] <= n[1..];
    }
  }

  function Texts(names: seq<Name>): (r: seq<seq<Byte>>)
    ensures |r| == |names| && forall g :: 0 <= g < |names| ==> r[g] == Text(names[g])
  {
    seq(|names|, g requires 0 <= g < |names| => Text(names[g]))
  }

  /** The first file of this name, or the number of files. */
  function Find(names: seq<seq<Byte>>, name: seq<Byte>, i: nat): (g: nat)
    requires i <= |names|
    ensures i <= g <= |names| && (g < |names| ==> names[g] == name) && forall j :: i <= j < g ==> names[j] != name
    decreases |names| - i
  {
    if i == |names| || names[i] == name then i else Find(names, name, i + 1)
  }

  lemma FindSame(names: seq<Name>, name: seq<Byte>)
    requires |name| < LF_NAME_LEN && 0 !in name
    ensures Find(Texts(names), name, 0) == FindName(names, name, 0)
  {
    var g := Find(Texts(names), name, 0);
    forall j | 0 <= j < |names|
      ensures name + [0] <= names[j] <==> Texts(names)[j] == name
    {
      TextIs(names[j], name);
    }
    FindNameIs(names, name, 0, g);
  }

  // ---- one call

  ghost predicate UserOk(u: User) { AbsOk(u.abs) && |u.names| == |u.abs.files| }

  /** A call that can be made of n devices. */
  predicate CallOk(n: int, c: Call) {
    match c
    case Open(name, _) => 0 !in name
    case Close(m) => 0 <= m < n
    case Use(op) => 0 <= op.Minor() < n && (op.Write? ==> op.count <= |op.buff|)
  }

  /** Which device and which file an open picks. */
  ghost function Picked(u: User, name: seq<Byte>, mode: Mode): (r: OpenRet)
    ensures r.Opened? ==> 0 <= r.dev < |u.abs.open| && u.abs.open[r.dev].Closed? && 0 <= r.file <= |u.names|
  {
    FirstClosedIn(u.abs.open, 0);
    if |name| >= LF_NAME_LEN || mode.BadMode? then OpenErr
    else if name == [] && SomeOpen(u.abs.open) then OpenErr
    else if FirstClosed(u.abs.open, 0) == -1 then OpenErr
    else
      var g := Find(u.names, name, 0);
      if if g == |u.names| then mode.mustExist || g >= LF_NUM_DIR_ENT else mode.mustNotExist then OpenErr
      else Opened(FirstClosed(u.abs.open, 0), g)
  }

  /** The call opens a file that some device has open: the rule that the code does not keep. */
  ghost predicate OpensTwice(u: User, c: Call) {
    c.Open? && Picked(u, c.name, c.mode).Opened? && IsOpen(u.abs.open, Picked(u, c.name, c.mode).file)
  }

  /** The files as the call would leave them do not fit on the disk. */
  ghost predicate Overflows(nib: int, sectors: int, u: User, c: Call)
    requires UserOk(u) && CallOk(|u.abs.open|, c)
  {
    c.Use? && !StepFits(nib, sectors, u.abs, c.op)
  }

  /** After this call nothing more is said. */
  ghost predicate Breaks(nib: int, sectors: int, u: User, c: Call)
    requires UserOk(u) && CallOk(|u.abs.open|, c)
  {
    OpensTwice(u, c) || Overflows(nib, sectors, u, c)
  }

  ghost function UserStep(u: User, c: Call): (r: (User, Answer))
    requires UserOk(u) && CallOk(|u.abs.open|, c)
    ensures |r.0.abs.open| == |u.abs.open|
  {
    match c
    case Open(name, mode) =>
      var r := Picked(u, name, mode);
      if r.OpenErr? then (u, Opening(r))
      else
        var open := u.abs.open[r.dev := At(r.file, 0)];
        (if r.file < |u.names| then User(u.names, Abs(u.abs.files, open)) else User(u.names + [name], Abs(u.abs.files + [[]], open)), Opening(r))
    case Close(m) =>
      if u.abs.open[m].Closed? then (u, Answer(SysErr)) else (u.(abs := u.abs.(open := u.abs.open[m := Closed])), Answer(Ok))
    case Use(op) => var (a, r) := Step(u.abs, op); (u.(abs := a), Answer(r))
  }

  lemma UserStepKeeps(u: User, c: Call)
    requires UserOk(u) && CallOk(|u.abs.open|, c) && !OpensTwice(u, c)
    ensures UserOk(UserStep(u, c).0)
  {
    if c.Use? {
      StepKeepsAbsOk(u.abs, c.op);
      StepFrame(u.abs, c.op);
    }
  }

  // ---- sessions

  ghost predicate CallsOk(u: User, cs: seq<Call>) { UserOk(u) && forall i :: 0 <= i < |cs| ==> CallOk(|u.abs.open|, cs[i]) }

  /** The answers of a session and what it leaves, up to the first call that breaks it. Its answer, too,
      is known: an overflow is a panic, and a second open succeeds. */
  ghost function Session(nib: int, sectors: int, u: User, cs: seq<Call>): (r: (User, seq<Answer>))
    requires CallsOk(u, cs)
    decreases |cs|
  {
    if cs == [] then (u, [])
    else if OpensTwice(u, cs[0]) then (u, [Opening(Picked(u, cs[0].name, cs[0].mode))])
    else if Overflows(nib, sectors, u, cs[0]) then (u, [Answer(Panic)])
    else
      UserStepKeeps(u, cs[0]);
      var (u1, a) := UserStep(u, cs[0]);
      var (u2, more) := Session(nib, sectors, u1, cs[1..]);
      (u2, [a] + more)
  }

  /** No call breaks the session. */
  ghost predicate Completes(nib: int, sectors: int, u: User, cs: seq<Call>)
    requires CallsOk(u, cs)
    decreases |cs|
  {
    cs == [] || (!Breaks(nib, sectors, u, cs[0]) && (UserStepKeeps(u, cs[0]); Completes(nib, sectors, UserStep(u, cs[0]).0, cs[1..])))
  }

  // ---- what the calls do

  ghost function UserOf(fs: FileSystem): User
    reads fs, fs.tab
  {
    User(Texts(NamesOf(fs.st.dir)), fs.View())
  }

  lemma UserOfOk(fs: FileSystem)
    requires fs.Valid()
    ensures UserOk(UserOf(fs)) && |UserOf(fs).abs.open| == |fs.tab|
  {
    fs.ViewOk();
    NamesAre(fs);
  }

  /** The names in the directory decide as their texts do. */
  lemma PickedSame(fs: FileSystem, name: seq<Byte>, mode: Mode)
    requires fs.Valid() && 0 !in name
    ensures Picked(UserOf(fs), name, mode) == OpenOutcome(NamesOf(fs.st.dir), fs.Open(), name, mode)
  {
    if |name| < LF_NAME_LEN {
      FindSame(NamesOf(fs.st.dir), name);
    }
  }

  lemma PickedShort(names: seq<Name>, name: seq<Byte>, o: OpenRet)
    requires exists hs, mode :: o == OpenOutcome(names, hs, name, mode) && o.Opened?
    ensures |name| < LF_NAME_LEN
  {
  }

  /** The names after an open, as texts. */
  lemma TextsAfter(names: seq<Name>, name: seq<Byte>, g: int, names': seq<Name>)
    requires NamesAfter(names, name, g, names') && 0 !in name && |name| < LF_NAME_LEN
    ensures Texts(names') == if g < |names| then Texts(names) else Texts(names) + [name]
  {
    if g == |names| {
      TextIs(names'[g], name);
      forall j | 0 <= j < g
        ensures names'[j] == names[j]
      {
        assert names'[..g][j] == names[j];
      }
    }
  }

  lemma SteadyNames(s: Fs, s': Fs)
    requires Steady(s, s')
    ensures NamesOf(s'.dir) == NamesOf(s.dir)
  {
  }

  method PerformOpen(fs: FileSystem, name: seq<Byte>, mode: Mode) returns (o: OpenRet)
    requires fs.Valid() && 0 !in name
    modifies fs, fs.tab
    ensures UserOk(old(UserOf(fs))) && |old(UserOf(fs)).abs.open| == |fs.tab| && o == Picked(old(UserOf(fs)), name, mode)
    ensures fs.st.nib == old(fs.st).nib && |fs.st.disk| == |old(fs.st).disk|
    ensures fs.Valid() <==> !OpensTwice(old(UserOf(fs)), Open(name, mode))
    ensures (UserOf(fs), Opening(o)) == UserStep(old(UserOf(fs)), Open(name, mode))
  {
    hide Picked, Text, NamesAfter, OpenOutcome, Steady;
    UserOfOk(fs);
    PickedSame(fs, name, mode);
    NamesAre(fs);
    ghost var names := NamesOf(fs.st.dir);
    o := fs.Lfsopen(name, mode);
    if o.Opened? {
      PickedShort(names, name, o);
      TextsAfter(names, name, o.file, NamesOf(fs.st.dir));
    }
  }

  method PerformClose(fs: FileSystem, m: int) returns (r: Ret)
    requires fs.Valid() && 0 <= m < |fs.tab|
    modifies fs, fs.tab
    ensures UserOk(old(UserOf(fs))) && |old(UserOf(fs)).abs.open| == |fs.tab|
    ensures fs.st.nib == old(fs.st).nib && |fs.st.disk| == |old(fs.st).disk|
    ensures fs.Valid() && (UserOf(fs), Answer(r)) == UserStep(old(UserOf(fs)), Close(m)) && r != Panic
    ensures r == Ok ==> !fs.dirdirty
  {
    hide Text;
    UserOfOk(fs);
    fs.ViewOk();
    r := fs.Lflclose(m);
    SteadyNames(old(fs.st), fs.st);
  }

  method PerformUse(fs: FileSystem, op: Op) returns (r: Ret)
    requires fs.Valid() && OpOk(fs.View(), op)
    modifies fs, fs.tab
    ensures UserOk(old(UserOf(fs))) && |old(UserOf(fs)).abs.open| == |fs.tab|
    ensures r == Panic <==> !StepFits(old(fs.st).nib, |old(fs.st).disk|, old(UserOf(fs)).abs, op)
    ensures r != Panic ==> fs.st.nib == old(fs.st).nib && |fs.st.disk| == |old(fs.st).disk|
    ensures r != Panic ==> fs.Valid() && (UserOf(fs), Answer(r)) == UserStep(old(UserOf(fs)), Use(op))
  {
    hide Text, Step, Fits;
    UserOfOk(fs);
    r := Do(fs, op);
    if r != Panic {
      SteadyNames(old(fs.st), fs.st);
    }
  }

  /** One call. */
  method Perform(fs: FileSystem, c: Call) returns (r: Answer)
    requires fs.Valid() && CallOk(|fs.tab|, c)
    modifies fs, fs.tab
    ensures UserOk(old(UserOf(fs))) && |old(UserOf(fs)).abs.open| == |fs.tab|
    ensures r != Answer(Panic) ==> fs.st.nib == old(fs.st).nib && |fs.st.disk| == |old(fs.st).disk|
    ensures r.Opening? <==> c.Open?
    ensures c.Open? ==> r == Opening(Picked(old(UserOf(fs)), c.name, c.mode))
    ensures OpensTwice(old(UserOf(fs)), c) ==> !fs.Valid() && (UserOf(fs), r) == UserStep(old(UserOf(fs)), c)
    ensures r == Answer(Panic) <==> Overflows(old(fs.st).nib, |old(fs.st).disk|, old(UserOf(fs)), c)
    ensures !Breaks(old(fs.st).nib, |old(fs.st).disk|, old(UserOf(fs)), c) ==> fs.Valid() && (UserOf(fs), r) == UserStep(old(UserOf(fs)), c)
    ensures c.Close? && r == Answer(Ok) ==> !fs.dirdirty
  {
    hide UserStep, Picked, StepFits, IsOpen;
    UserOfOk(fs);
    match c
    case Open(name, mode) =>
      var o := PerformOpen(fs, name, mode);
      r := Opening(o);
    case Close(m) =>
      var ret := PerformClose(fs, m);
      r := Answer(ret);
    case Use(op) =>
      var ret := PerformUse(fs, op);
      r := Answer(ret);
  }

  /** The answers so far, and the session from here on, make the whole session. */
  ghost predicate Continues(nib: int, sectors: int, u0: User, cs: seq<Call>, done: seq<Answer>, u: User, i: nat)
    requires CallsOk(u0, cs)
  {
    && i <= |cs| && CallsOk(u, cs[i..]) && |u.abs.open| == |u0.abs.open|
    && Session(nib, sectors, u0, cs) == (Session(nib, sectors, u, cs[i..]).0, done + Session(nib, sectors, u, cs[i..]).1)
    && (Completes(nib, sectors, u0, cs) <==> Completes(nib, sectors, u, cs[i..]))
  }

  lemma Starts(nib: int, sectors: int, u: User, cs: seq<Call>)
    requires CallsOk(u, cs)
    ensures Continues(nib, sectors, u, cs, [], u, 0)
  {
    assert cs[0..] == cs;
    assert [] + Session(nib, sectors, u, cs).1 == Session(nib, sectors, u, cs).1;
  }

  lemma GoesOn(nib: int, sectors: int, u0: User, cs: seq<Call>, done: seq<Answer>, u: User, i: nat)
    requires CallsOk(u0, cs) && Continues(nib, sectors, u0, cs, done, u, i) && i < |cs| && !Breaks(nib, sectors, u, cs[i])
    ensures Continues(nib, sectors, u0, cs, done + [UserStep(u, cs[i]).1], UserStep(u, cs[i]).0, i + 1)
  {
    hide UserStep, OpensTwice, Overflows, CallOk, UserOk;
    var rest := cs[i..];
    assert rest[0] == cs[i] && rest[1..] == cs[i + 1..];
    UserStepKeeps(u, cs[i]);
    var u1 := UserStep(u, cs[i]).0;
    assert forall j :: 0 <= j < |rest| ==> rest[j] == cs[i + j];
    var more := Session(nib, sectors, u1, cs[i + 1..]).1;
    assert done + ([UserStep(u, cs[i]).1] + more) == (done + [UserStep(u, cs[i]).1]) + more;
  }

  lemma Ends(nib: int, sectors: int, u0: User, cs: seq<Call>, done: seq<Answer>, u: User, i: nat)
    requires CallsOk(u0, cs) && Continues(nib, sectors, u0, cs, done, u, i)
    ensures i == |cs| ==> Completes(nib, sectors, u0, cs) && Session(nib, sectors, u0, cs) == (u, done)
    ensures i < |cs| && OpensTwice(u, cs[i]) ==>
              !Completes(nib, sectors, u0, cs) && Session(nib, sectors, u0, cs).1 == done + [Opening(Picked(u, cs[i].name, cs[i].mode))]
    ensures i < |cs| && Overflows(nib, sectors, u, cs[i]) ==> !Completes(nib, sectors, u0, cs) && Session(nib, sectors, u0, cs).1 == done + [Answer(Panic)]
  {
    hide UserStep;
    if i < |cs| {
      assert cs[i..][0] == cs[i];
    } else {
      assert done + [] == done;
    }
  }

  /** The file that each device has open, or -1. */
  predicate Held(hs: seq<Handle>, held: seq<int>) {
    |held| == |hs| && forall m :: 0 <= m < |hs| ==> held[m] == if hs[m].At? then hs[m].file else -1
  }

  function HeldAfter(held: seq<int>, c: Call, r: Answer): seq<int> {
    if c.Open? && r.Opening? && r.open.Opened? && 0 <= r.open.dev < |held| then held[r.open.dev := r.open.file]
    else if c.Close? && 0 <= c.m < |held| then held[c.m := -1]
    else held
  }

  lemma HeldIs(u: User, c: Call, held: seq<int>)
    requires UserOk(u) && CallOk(|u.abs.open|, c) && Held(u.abs.open, held)
    ensures Held(UserStep(u, c).0.abs.open, HeldAfter(held, c, UserStep(u, c).1))
    ensures OpensTwice(u, c) <==> c.Open? && Picked(u, c.name, c.mode).Opened? && Picked(u, c.name, c.mode).file in held
  {
    hide Picked;
  }

  /** Every session answers what it answers on plain names and byte sequences, and leaves those, up to
      the first call that would leave files too large for the disk, which panics, or that opens an open
      file, which succeeds. */
  method Run(fs: FileSystem, cs: seq<Call>) returns (rs: seq<Answer>)
    requires fs.Valid() && forall i :: 0 <= i < |cs| ==> CallOk(|fs.tab|, cs[i])
    modifies fs, fs.tab
    ensures CallsOk(old(UserOf(fs)), cs)
    ensures rs == Session(old(fs.st).nib, |old(fs.st).disk|, old(UserOf(fs)), cs).1
    ensures Completes(old(fs.st).nib, |old(fs.st).disk|, old(UserOf(fs)), cs) ==>
              fs.Valid() && UserOf(fs) == Session(old(fs.st).nib, |old(fs.st).disk|, old(UserOf(fs)), cs).0
    ensures |rs| == |cs| > 0 && cs[|cs| - 1].Close? && rs[|cs| - 1] == Answer(Ok) ==> !fs.dirdirty
  {
    hide UserStep, Session, Completes, Picked, OpensTwice, Overflows, Continues, UserOk, CallOk, Held;
    UserOfOk(fs);
    ghost var u0, nib, sectors := UserOf(fs), fs.st.nib, |fs.st.disk|;
    var held := HeldNow(fs);
    rs := [];
    var i := 0;
    Starts(nib, sectors, u0, cs);
    while i < |cs|
      invariant 0 <= i <= |cs| && |rs| == i && fs.Valid() && fs.st.nib == nib && |fs.st.disk| == sectors
      invariant Continues(nib, sectors, u0, cs, rs, UserOf(fs), i) && Held(UserOf(fs).abs.open, held)
      invariant i > 0 && cs[i - 1].Close? && rs[i - 1] == Answer(Ok) ==> !fs.dirdirty
    {
      ghost var u := UserOf(fs);
      UserOfOk(fs);
      Ends(nib, sectors, u0, cs, rs, u, i);
      HeldIs(u, cs[i], held);
      var r := Perform(fs, cs[i]);
      if r == Answer(Panic) || (r.Opening? && r.open.Opened? && r.open.file in held) {
        rs := rs + [r];
        return;
      }
      GoesOn(nib, sectors, u0, cs, rs, u, i);
      held := HeldAfter(held, cs[i], r);
      rs := rs + [r];
      i := i + 1;
    }
    Ends(nib, sectors, u0, cs, rs, UserOf(fs), i);
  }

  method HeldNow(fs: FileSystem) returns (held: seq<int>)
    requires fs.Valid()
    ensures Held(UserOf(fs).abs.open, held)
  {
    fs.ViewOk();
    held := seq(|fs.tab|, m requires 0 <= m < |fs.tab| reads fs.tab => if fs.tab[m].used then fs.tab[m].dirent else -1);
  }

  // ---- what sessions keep

  ghost predicate NamesDiffer(names: seq<seq<Byte>>) {
    forall g, h :: 0 <= g < |names| && 0 <= h < |names| && g != h ==> names[g] != names[h]
  }

  /** No session gives two files one name. */
  lemma {:induction false} NamesStayApart(nib: int, sectors: int, u: User, cs: seq<Call>)
    requires CallsOk(u, cs) && NamesDiffer(u.names)
    ensures UserOk(Session(nib, sectors, u, cs).0) && NamesDiffer(Session(nib, sectors, u, cs).0.names)
    decreases |cs|
  {
    if cs != [] && !Breaks(nib, sectors, u, cs[0]) {
      UserStepKeeps(u, cs[0]);
      NamesStayApart(nib, sectors, UserStep(u, cs[0]).0, cs[1..]);
    }
  }

  /** File g is closed, and as it was in u. */
  ghost predicate AsItWas(u: User, u': User, g: int)
    requires 0 <= g < |u.names| == |u.abs.files|
  {
    UserOk(u') && g < |u'.names| && u'.names[g] == u.names[g] && u'.abs.files[g] == u.abs.files[g] && !IsOpen(u'.abs.open, g)
  }

  lemma OthersStep(u0: User, u: User, c: Call, g: int)
    requires 0 <= g < |u0.names| == |u0.abs.files| && AsItWas(u0, u, g) && CallOk(|u.abs.open|, c) && !OpensTwice(u, c)
    requires c.Open? ==> c.name != u0.names[g]
    ensures AsItWas(u0, UserStep(u, c).0, g)
  {
    UserStepKeeps(u, c);
    if c.Use? {
      StepFrame(u.abs, c.op);
      HandlesStay(u.abs, c.op);
    }
  }

  /** An operation opens nothing. */
  lemma HandlesStay(a: Abs, op: Op)
    requires AbsOk(a) && OpOk(a, op)
    ensures var a' := Step(a, op).0;
      |a'.open| == |a.open| && forall m :: 0 <= m < |a.open| ==> (a'.open[m].At? <==> a.open[m].At?) && (a.open[m].At? ==> a'.open[m].file == a.open[m].file)
  {
  }

  /** A closed file stays as it is while nobody opens its name, whatever else is created, opened, written
      and closed. */
  lemma {:induction false} Untouched(nib: int, sectors: int, u0: User, u: User, cs: seq<Call>, g: int)
    requires CallsOk(u, cs) && 0 <= g < |u0.names| == |u0.abs.files| && AsItWas(u0, u, g)
    requires forall i :: 0 <= i < |cs| && cs[i].Open? ==> cs[i].name != u0.names[g]
    ensures AsItWas(u0, Session(nib, sectors, u, cs).0, g)
    decreases |cs|
  {
    hide AsItWas, UserStep, Picked;
    if cs != [] && !Breaks(nib, sectors, u, cs[0]) {
      OthersStep(u0, u, cs[0], g);
      UserStepKeeps(u, cs[0]);
      Untouched(nib, sectors, u0, UserStep(u, cs[0]).0, cs[1..], g);
    }
  }

  /** Opening this name opens file g, which is not open yet, and a seek to pos and a read return bs. */
  ghost predicate GivesBack(u: User, name: seq<Byte>, mode: Mode, g: int, pos: nat, bs: seq<Byte>)
    requires UserOk(u) && 0 !in name
  {
    var o := Picked(u, name, mode);
    o.Opened? ==>
      && o.file == g && !OpensTwice(u, Open(name, mode))
      && (UserStepKeeps(u, Open(name, mode));
          var u1 := UserStep(u, Open(name, mode)).0;
          UserStepKeeps(u1, Use(Seek(o.dev, pos)));
          UserStep(UserStep(u1, Use(Seek(o.dev, pos))).0, Use(Read(o.dev, |bs|))).1 == Answer(Bytes(bs)))
  }

  /** Bytes that are in a file when it is closed are read back when it is opened again, whatever was
      done to other files in between. */
  lemma ReadsBackLater(nib: int, sectors: int, u: User, cs: seq<Call>, g: int, mode: Mode, pos: nat, bs: seq<Byte>)
    requires CallsOk(u, cs) && NamesDiffer(u.names) && 0 <= g < |u.names| && 0 !in u.names[g] && !IsOpen(u.abs.open, g)
    requires forall i :: 0 <= i < |cs| && cs[i].Open? ==> cs[i].name != u.names[g]
    requires bs != [] && pos + |bs| <= |u.abs.files[g]| && u.abs.files[g][pos..pos + |bs|] == bs
    ensures var u1 := Session(nib, sectors, u, cs).0;
      UserOk(u1) && GivesBack(u1, u.names[g], mode, g, pos, bs)
  {
    hide Session;
    NamesStayApart(nib, sectors, u, cs);
    assert AsItWas(u, u, g);
    Untouched(nib, sectors, u, u, cs, g);
    OpenedAgain(Session(nib, sectors, u, cs).0, mode, g, pos, bs);
  }

  lemma OpenedAgain(u: User, mode: Mode, g: int, pos: nat, bs: seq<Byte>)
    requires UserOk(u) && NamesDiffer(u.names) && 0 <= g < |u.names| && 0 !in u.names[g] && !IsOpen(u.abs.open, g)
    requires bs != [] && pos + |bs| <= |u.abs.files[g]| && u.abs.files[g][pos..pos + |bs|] == bs
    ensures GivesBack(u, u.names[g], mode, g, pos, bs)
  {
    var c := Open(u.names[g], mode);
    if Picked(u, c.name, mode).Opened? {
      UserStepKeeps(u, c);
    }
  }

  // ---- a restart

  /** Every device is closed at the end, by a call that was the last. */
  ghost predicate EndsClosed(nib: int, sectors: int, u: User, cs: seq<Call>)
    requires CallsOk(u, cs)
  {
    var (u1, rs) := Session(nib, sectors, u, cs);
    && Completes(nib, sectors, u, cs) && |rs| == |cs| > 0 && cs[|cs| - 1].Close? && rs[|cs| - 1] == Answer(Ok)
    && forall m :: 0 <= m < |u1.abs.open| ==> u1.abs.open[m].Closed?
  }

  /** A system started afresh once everything is closed shows the same names and bytes, short of
      trailing files that were never written. */
  method StartAfresh(fs: FileSystem, nlfl: nat) returns (fs': FileSystem)
    requires fs.Valid() && !fs.dirdirty && forall m :: 0 <= m < |UserOf(fs).abs.open| ==> UserOf(fs).abs.open[m].Closed?
    ensures fs'.Valid() && fs'.disk == fs.disk && |fs.disk| > 0
    ensures Restarts(UserOf(fs), UserOf(fs'), DecodeDir(fs.disk[0]).nfiles, nlfl)
  {
    hide Text;
    UserOfOk(fs);
    fs.ViewOk();
    fs' := Restart(fs, nlfl);
    UserOfOk(fs');
    assert UserOf(fs').abs.open == seq(nlfl, m => Closed);
  }

  /** u' has the first k files of u, all closed, and the others are empty. */
  ghost predicate Restarts(u: User, u': User, k: int, nlfl: nat) {
    && 0 <= k <= |u.names| == |u.abs.files| && u' == User(u.names[..k], Abs(u.abs.files[..k], seq(nlfl, m => Closed)))
    && forall g :: k <= g < |u.abs.files| ==> u.abs.files[g] == []
  }

  /** So does one started after a session that ends with everything closed. */
  method RunAndRestart(fs: FileSystem, cs: seq<Call>, nlfl: nat) returns (rs: seq<Answer>, fs': FileSystem)
    requires fs.Valid() && CallsOk(UserOf(fs), cs) && EndsClosed(fs.st.nib, |fs.st.disk|, UserOf(fs), cs)
    modifies fs, fs.tab
    ensures CallsOk(old(UserOf(fs)), cs) && fs'.Valid() && |fs.disk| > 0
    ensures Restarts(Session(old(fs.st).nib, |old(fs.st).disk|, old(UserOf(fs)), cs).0, UserOf(fs'), DecodeDir(fs.disk[0]).nfiles, nlfl)
  {
    hide Session, Completes, Restarts, CallOk, UserOk;
    UserOfOk(fs);
    rs := Run(fs, cs);
    fs' := StartAfresh(fs, nlfl);
  }
}
