/** Whole runs of memory accesses: with paging they return what they return on flat memory. */
module VmRuns {
  import opened BackingStore
  import opened VmSpec
  import opened VmSteps
  import opened VmFaults
  import opened PagingTables
  import opened Paging

  datatype MemOp = Load(pid: int, vpn: int) | Store(pid: int, vpn: int, pg: Page)

  /** Everybody's memory. */
  ghost function Flat(s: Vm): imap<(int, int), Page>
    requires Sized(s)
  {
    imap k: (int, int) | Mapped(s, k.0, k.1) :: Mem(s, k.0, k.1)
  }

  ghost predicate OpOk(s: Vm, op: MemOp) {
    op.pid > 0 && op.pid in s.dir && Mapped(s, op.pid, op.vpn) && 4 <= op.vpn / 1024 < 576
  }

  /** One access on flat memory. */
  ghost function FlatStep(m: imap<(int, int), Page>, op: MemOp): (imap<(int, int), Page>, Page)
    requires (op.pid, op.vpn) in m
  {
    match op
    case Load(pid, vpn) => (m, m[(pid, vpn)])
    case Store(pid, vpn, pg) => (m[(pid, vpn) := pg], pg)
  }

  /** A sequence of accesses on flat memory: the memory afterwards, and what each access saw. */
  ghost function FlatRun(m: imap<(int, int), Page>, ops: seq<MemOp>): (r: (imap<(int, int), Page>, seq<Page>))
    requires forall i :: 0 <= i < |ops| ==> (ops[i].pid, ops[i].vpn) in m
    ensures r.0.Keys == m.Keys && |r.1| == |ops|
  {
    if ops == [] then (m, [])
    else
      var n := |ops| - 1;
      var r := FlatRun(m, ops[..n]);
      var q := FlatStep(r.0, ops[n]);
      (q.0, r.1 + [q.1])
  }

  lemma SameFlat(s: Vm, s': Vm)
    requires Sized(s) && Sized(s') && SameMemory(s, s')
    ensures Flat(s') == Flat(s)
  {
    assert forall pid, vpn :: Mapped(s', pid, vpn) <==> Mapped(s, pid, vpn);
  }

  /** What an access sees, and what it does to flat memory. */
  lemma AccessFlat(s: Vm, op: MemOp)
    requires VmInv(s, -1) && (op.pid, op.vpn) in s.at && Mapped(s, op.pid, op.vpn)
    ensures InFrames(s, s.at[(op.pid, op.vpn)], PageOf(op.pid, op.vpn)) && |s.own| == |s.bits| == |s.data|
    ensures var pg := if op.Store? then op.pg else s.data[s.at[(op.pid, op.vpn)]];
      var s' := Accessed(s, s.at[(op.pid, op.vpn)], op.Store?, pg);
      Sized(s') && s'.bsmap == s.bsmap && (Flat(s'), pg) == FlatStep(Flat(s), op)
  {
    var f := s.at[(op.pid, op.vpn)];
    assert InFrames(s, f, PageOf(op.pid, op.vpn)) by {
      assert VmInvSpelledOut(s);
    }
    var pg := if op.Store? then op.pg else s.data[f];
    AccessChanges(s, op.pid, op.vpn, op.Store?, pg);
    var s' := Accessed(s, f, op.Store?, pg);
    if op.Store? {
      StoreFlat(s, s', op.pid, op.vpn, pg);
    } else {
      SameFlat(s, s');
    }
  }

  lemma FlatAt(s: Vm, p: int, v: int)
    requires Sized(s)
    ensures (p, v) in Flat(s) <==> Mapped(s, p, v)
    ensures Mapped(s, p, v) ==> Flat(s)[(p, v)] == Mem(s, p, v)
  {
  }

  lemma StoreFlat(s: Vm, s': Vm, pid: int, vpn: int, pg: Page)
    requires Sized(s) && Sized(s') && s'.bsmap == s.bsmap && Mapped(s, pid, vpn)
    requires forall p, v :: Mapped(s, p, v) ==> Mem(s', p, v) == if (p, v) == (pid, vpn) then pg else Mem(s, p, v)
    ensures Flat(s') == Flat(s)[(pid, vpn) := pg]
  {
    var m, m', m0 := Flat(s)[(pid, vpn) := pg], Flat(s'), Flat(s);
    forall p, v
      ensures ((p, v) in m <==> (p, v) in m') && ((p, v) in m ==> m'[(p, v)] == m[(p, v)])
    {
      FlatAt(s, p, v);
      FlatAt(s', p, v);
      FlatAt(s, pid, vpn);
    }
    PairMaps(m, m');
  }

  lemma PairMaps(m: imap<(int, int), Page>, m': imap<(int, int), Page>)
    requires forall p, v :: ((p, v) in m <==> (p, v) in m') && ((p, v) in m ==> m'[(p, v)] == m[(p, v)])
    ensures m == m'
  {
    forall k: (int, int)
      ensures (k in m <==> k in m') && (k in m ==> m'[k] == m[k])
    {
      var p, v := k.0, k.1;
      assert k == (p, v) && ((p, v) in m <==> (p, v) in m') && ((p, v) in m ==> m'[(p, v)] == m[(p, v)]);
    }
  }

  /** A resident page is present where the processor looks. */
  lemma Found(ps: PagingSystem, pid: int, vpn: int)
    requires ps.Valid() && (pid, vpn) in ps.st.at
    ensures ps.PresentAt(pid, vpn)
    ensures var pt := ps.mem[ps.pdbr[pid]].pdes[vpn / 1024].base - 1024;
      var f := ps.mem[pt].ptes[vpn % 1024].base - 1024;
      f == ps.st.at[(pid, vpn)] && 0 <= f < ps.mem.Length && |ps.st.data| == ps.mem.Length && ps.mem[f] == Data(ps.st.data[f])
  {
    var s, f := ps.st, ps.st.at[(pid, vpn)];
    assert InFrames(s, f, PageOf(pid, vpn)) by {
      assert VmInvSpelledOut(s);
    }
    Lookup(ps.ivptab[..], ps.links[..], ps.mem[..], s, f);
  }

  /** And the other way round. */
  lemma Resides(ps: PagingSystem, pid: int, vpn: int)
    requires ps.Valid() && pid > 0 && pid in ps.st.dir && 4 <= vpn / 1024 < 576 && ps.PresentAt(pid, vpn)
    ensures (pid, vpn) in ps.st.at
  {
    var s, p := ps.st, vpn / 1024;
    DirAt(ps.ivptab[..], ps.links[..], ps.mem[..], s, pid, p);
    TableAt(ps.ivptab[..], ps.links[..], ps.mem[..], s, pid, p);
    assert ShowsSpelledOut(s);
    var b := s.tab[(pid, p)];
    assert FrameShows(ps.ivptab[..][b], ps.mem[..][b], s, b, -1);
    assert vpn == Vpn(p, vpn % 1024);
    assert PteShows(ps.mem[..][b].ptes[vpn % 1024], s, pid, Vpn(p, vpn % 1024));
  }

  /** The state once a page is resident, by a fault if need be. */
  ghost function Brought(s: Vm, policy: int, pid: int, vpn: int): Faulted
    requires VmInv(s, -1) && Quiet(s) && Mapped(s, pid, vpn) && pid in s.dir && pid > 0 && 4 <= vpn / 1024 < 576
  {
    if (pid, vpn) in s.at then Loaded(s, s.at[(pid, vpn)]) else Fault(s, policy, pid, vpn)
  }

  /** Bringing the page in loses a known hand: it needs a frame for its table, and getting that does. */
  ghost predicate BringingLosesHand(s: Vm, policy: int, pid: int, vpn: int) {
    (pid, vpn) !in s.at && (pid, vpn / 1024) !in s.tab && LosesHand(s, policy, PAGE_TAB)
  }

  lemma BroughtKeeps(s: Vm, policy: int, pid: int, vpn: int)
    requires VmInv(s, -1) && Quiet(s) && Mapped(s, pid, vpn) && pid in s.dir && pid > 0 && 4 <= vpn / 1024 < 576
    requires Brought(s, policy, pid, vpn).Loaded?
    ensures var s' := Brought(s, policy, pid, vpn).s;
      VmInv(s', -1) && Quiet(s') && SameMemory(s, s') && s'.dir == s.dir && (pid, vpn) in s'.at && s'.at[(pid, vpn)] == Brought(s, policy, pid, vpn).frame
    ensures HandKnown(s) ==> (HandKnown(Brought(s, policy, pid, vpn).s) <==> !BringingLosesHand(s, policy, pid, vpn))
    ensures policy == GCA ==> !BringingLosesHand(s, policy, pid, vpn)
  {
    if (pid, vpn) in s.at {
      assert SameMemory(s, s);
    } else {
      FaultKeeps(s, policy, pid, vpn);
      if HandKnown(s) {
        FaultHand(s, policy, pid, vpn);
      }
    }
  }

  /** Make sure the page is present, by a fault if need be. */
  method BringIn(ps: PagingSystem, pid: int, vpn: int) returns (done: bool)
    requires ps.Valid() && pid > 0 && pid in ps.st.dir && Mapped(ps.st, pid, vpn) && 4 <= vpn / 1024 < 576
    requires ps.currpolicy == GCA ==> HandKnown(ps.st)
    modifies ps.ivptab, ps.links, ps.mem, ps`disk, ps`fifoHand, ps`st
    ensures VmInv(old(ps.st), -1) && Quiet(old(ps.st)) && Mapped(old(ps.st), pid, vpn)
    ensures done <==> Brought(old(ps.st), ps.currpolicy, pid, vpn).Loaded?
    ensures done ==> ps.Valid() && ps.st == Brought(old(ps.st), ps.currpolicy, pid, vpn).s
  {
    ghost var s0 := ps.st;
    if ps.PresentAt(pid, vpn) {
      Resides(ps, pid, vpn);
      return true;
    }
    assert (pid, vpn) !in s0.at by {
      if (pid, vpn) in s0.at {
        Found(ps, pid, vpn);
      }
    }
    var r := ps.PageFault(pid, vpn);
    done := r == Fine && ps.PresentAt(pid, vpn);
  }

  /** The page can be brought in. */
  ghost predicate CanTouch(s: Vm, policy: int, op: MemOp) {
    && VmInv(s, -1) && Quiet(s) && OpOk(s, op) && Brought(s, policy, op.pid, op.vpn).Loaded?
    && 0 <= Brought(s, policy, op.pid, op.vpn).frame < |Brought(s, policy, op.pid, op.vpn).s.own|
  }

  /** The state after an access that can be made. */
  ghost function Touched(s: Vm, policy: int, op: MemOp): Vm
    requires CanTouch(s, policy, op)
  {
    var b := Brought(s, policy, op.pid, op.vpn);
    BroughtKeeps(s, policy, op.pid, op.vpn);
    Accessed(b.s, b.frame, op.Store?, if op.Store? then op.pg else b.s.data[b.frame])
  }

  lemma TouchedHand(s: Vm, policy: int, op: MemOp)
    requires CanTouch(s, policy, op) && policy == GCA && HandKnown(s)
    ensures HandKnown(Touched(s, policy, op))
  {
    hide Brought, BringingLosesHand;
    BroughtKeeps(s, policy, op.pid, op.vpn);
  }

  /** One access by a process, with the page fault that it may cause. It is done exactly if the page
      is resident or the fault loads it. */
  method Touch(ps: PagingSystem, op: MemOp) returns (done: bool, got: Page)
    requires ps.Valid() && OpOk(ps.st, op) && (ps.currpolicy == GCA ==> HandKnown(ps.st))
    modifies ps.ivptab, ps.links, ps.mem, ps`disk, ps`fifoHand, ps`st
    ensures Sized(old(ps.st)) && (op.pid, op.vpn) in Flat(old(ps.st))
    ensures done <==> CanTouch(old(ps.st), ps.currpolicy, op)
    ensures done ==> ps.Valid() && ps.st == Touched(old(ps.st), ps.currpolicy, op) && ps.st.dir == old(ps.st).dir && ps.st.bsmap == old(ps.st).bsmap
    ensures done ==> (Flat(ps.st), got) == FlatStep(Flat(old(ps.st)), op)
    ensures done && ps.currpolicy == GCA ==> HandKnown(ps.st)
  {
    hide Fault, TableFor, Brought, BringingLosesHand, HandKnown;
    ghost var s0 := ps.st;
    got := seq(4096, i => 0);
    done := BringIn(ps, op.pid, op.vpn);
    if !done {
      return;
    }
    BroughtKeeps(s0, ps.currpolicy, op.pid, op.vpn);
    SameFlat(s0, ps.st);
    AccessFlat(ps.st, op);
    Found(ps, op.pid, op.vpn);
    var pt := ps.mem[ps.pdbr[op.pid]].pdes[op.vpn / 1024].base - FRAME0;
    var frame := ps.mem[pt].ptes[op.vpn % 1024].base - FRAME0;
    got := if op.Store? then op.pg else ps.mem[frame].page;
    if ps.currpolicy == GCA {
      TouchedHand(s0, ps.currpolicy, op);
    }
    ps.Access(op.pid, op.vpn, op.Store?, got);
  }

  /** How many accesses come before the first whose page cannot be brought in, and the state after them. */
  ghost function Touches(s: Vm, policy: int, ops: seq<MemOp>): (r: (nat, Vm))
    ensures r.0 <= |ops|
  {
    if ops == [] then (0, s)
    else
      var k := |ops| - 1;
      var r := Touches(s, policy, ops[..k]);
      if r.0 < k || !CanTouch(r.1, policy, ops[k]) then r else (k + 1, Touched(r.1, policy, ops[k]))
  }

  lemma TouchesNone(s: Vm, policy: int, m: imap<(int, int), Page>, ops: seq<MemOp>)
    ensures Touches(s, policy, ops[..0]) == (0, s) && FlatRun(m, ops[..0]) == (m, [])
  {
  }

  /** One access more. */
  lemma TouchesMore(s: Vm, policy: int, m: imap<(int, int), Page>, ops: seq<MemOp>, i: nat)
    requires i < |ops| && Touches(s, policy, ops[..i]).0 == i && forall j :: 0 <= j < |ops| ==> (ops[j].pid, ops[j].vpn) in m
    ensures var s1 := Touches(s, policy, ops[..i]).1;
      Touches(s, policy, ops[..i + 1]) == if CanTouch(s1, policy, ops[i]) then (i + 1, Touched(s1, policy, ops[i])) else (i, s1)
    ensures var r := FlatRun(m, ops[..i]); FlatRun(m, ops[..i + 1]) == (FlatStep(r.0, ops[i]).0, r.1 + [FlatStep(r.0, ops[i]).1])
  {
    hide CanTouch, Touched, FlatStep;
    var u := ops[..i + 1];
    assert u[..i] == ops[..i] && u[i] == ops[i];
  }

  /** What comes after an access that fails does not matter. */
  lemma {:induction false} TouchesStop(s: Vm, policy: int, ops: seq<MemOp>, i: nat)
    requires i < |ops| && Touches(s, policy, ops[..i + 1]).0 <= i
    ensures Touches(s, policy, ops) == Touches(s, policy, ops[..i + 1])
  {
    hide Touched, CanTouch, Brought;
    if i + 1 < |ops| {
      var n := |ops| - 1;
      assert ops[..n][..i + 1] == ops[..i + 1];
      TouchesStop(s, policy, ops[..n], i);
    } else {
      assert ops[..i + 1] == ops;
    }
  }

  lemma OpStill(s: Vm, s': Vm, op: MemOp)
    requires OpOk(s, op) && s'.dir == s.dir && s'.bsmap == s.bsmap
    ensures OpOk(s', op)
  {
  }

  /** Every run of accesses by any processes sees what it would see on flat memory, whatever pages
      come and go meanwhile, up to the first access whose page cannot be brought in. */
  method Run(ps: PagingSystem, ops: seq<MemOp>) returns (done: bool, seen: seq<Page>)
    requires ps.Valid() && (forall i :: 0 <= i < |ops| ==> OpOk(ps.st, ops[i])) && (ps.currpolicy == GCA ==> HandKnown(ps.st))
    modifies ps.ivptab, ps.links, ps.mem, ps`disk, ps`fifoHand, ps`st
    ensures Sized(old(ps.st)) && forall i :: 0 <= i < |ops| ==> (ops[i].pid, ops[i].vpn) in Flat(old(ps.st))
    ensures var n := Touches(old(ps.st), ps.currpolicy, ops).0;
      (done <==> n == |ops|) && seen == FlatRun(Flat(old(ps.st)), ops[..n]).1
    ensures done ==> ps.Valid() && ps.st == Touches(old(ps.st), ps.currpolicy, ops).1 && Flat(ps.st) == FlatRun(Flat(old(ps.st)), ops).0
  {
    hide Touches, FlatRun, FlatStep, CanTouch, HandKnown, Mapped;
    ghost var s0, m := ps.st, Flat(ps.st);
    seen := [];
    done := true;
    var i := 0;
    TouchesNone(s0, ps.currpolicy, m, ops);
    while i < |ops|
      invariant 0 <= i <= |ops| && ps.Valid() && ps.st.dir == s0.dir && ps.st.bsmap == s0.bsmap && (ps.currpolicy == GCA ==> HandKnown(ps.st))
      invariant (Flat(ps.st), seen) == FlatRun(m, ops[..i]) && Touches(s0, ps.currpolicy, ops[..i]) == (i, ps.st)
    {
      TouchesMore(s0, ps.currpolicy, m, ops, i);
      OpStill(s0, ps.st, ops[i]);
      var got;
      done, got := Touch(ps, ops[i]);
      if !done {
        TouchesStop(s0, ps.currpolicy, ops, i);
        return;
      }
      seen := seen + [got];
      i := i + 1;
    }
    assert ops[..i] == ops;
  }
}
