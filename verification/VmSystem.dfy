/** Runs in which processes come and go while others use their memory. */
module VmSystem {
  import opened LfsDisk
  import opened BackingStore
  import opened VmSpec
  import opened VmSteps
  import opened VmFaults
  import opened Paging
  import opened VmRuns
  import VmProcesses

  datatype Event = Use(op: MemOp) | Begin(pid: int, hsize: nat) | End(pid: int) | Policy(policy: int)

  /** Holds between the calls of a run. */
  ghost predicate SysInv(s: Vm) {
    VmInv(s, -1) && Quiet(s) && VmProcesses.SpareUnmapped(s)
  }

  /** What can happen: an access whose page can be brought in; a new process that a frame can be found
      for, and whose heap fits in the free stores; the end of a process. Under the clock the hand
      must not be left on a page that is gone. */
  ghost predicate Can(s: Vm, policy: int, e: Event) {
    && SysInv(s) && (policy == GCA ==> HandKnown(s))
    && match e
       case Use(op) => CanTouch(s, policy, op)
       case Begin(pid, hsize) => pid > 0 && pid !in s.dir && hsize <= 200 * VmProcesses.FreeStores(s.bstab) && GetFrame(s, policy, PAGE_DIR, pid, 0).Got?
       case End(pid) => pid > 0
       case Policy(_) => true
  }

  ghost function Begun(s: Vm, policy: int, pid: int, hsize: nat): Vm
    requires VmInv(s, -1) && Quiet(s) && pid > 0 && GetFrame(s, policy, PAGE_DIR, pid, 0).Got?
  {
    GetFrameKeeps(s, policy, PAGE_DIR, pid, 0);
    var g := GetFrame(s, policy, PAGE_DIR, pid, 0);
    VmProcesses.MapHeap(DirMapped(g.s, g.frame, pid), pid, hsize, 0)
  }

  ghost function Next(s: Vm, policy: int, e: Event): (Vm, int)
    requires Can(s, policy, e)
  {
    match e
    case Use(op) => (Touched(s, policy, op), policy)
    case Begin(pid, hsize) => (Begun(s, policy, pid, hsize), policy)
    case End(pid) => VmProcesses.Dying(s, pid); (VmProcesses.Kill(s, pid), policy)
    case Policy(p) => (s, if p == FIFO || p == GCA then p else policy)
  }

  // ---- what each event keeps

  /** No page of a process without a directory is resident. */
  lemma NoneResident(s: Vm, pid: int)
    requires VmInv(s, -1) && pid > 0 && pid !in s.dir
    ensures VmProcesses.Fresh(s, pid)
  {
    assert VmInvSpelledOut(s);
  }

  /** Process p has what it had. */
  ghost predicate Undisturbed(s: Vm, s': Vm, p: int)
    requires Sized(s) && Sized(s')
  {
    && (p in s.dir ==> p in s'.dir)
    && forall v {:trigger Mapped(s, p, v)} :: Mapped(s, p, v) ==> Mapped(s', p, v) && Mem(s', p, v) == Mem(s, p, v)
  }

  lemma FrameStores(s: Vm, policy: int, pid: int, vpn: int)
    requires VmInv(s, -1) && Quiet(s) && Mapped(s, pid, vpn) && pid in s.dir && pid > 0 && 4 <= vpn / 1024 < 576
    ensures Brought(s, policy, pid, vpn).Loaded? ==> var s' := Brought(s, policy, pid, vpn).s; s'.bsmap == s.bsmap && s'.bstab == s.bstab
  {
    if (pid, vpn) !in s.at {
      TableForKeeps(s, policy, pid, vpn / 1024);
      if (pid, vpn / 1024) !in s.tab {
        StoresStay(s, policy, PAGE_TAB, pid, 0);
      }
      var t := TableFor(s, policy, pid, vpn / 1024);
      if t.Got? {
        StoresStay(t.s, policy, PAGE, pid, vpn);
      }
    }
  }

  lemma UseKeeps(s: Vm, policy: int, op: MemOp)
    requires SysInv(s) && CanTouch(s, policy, op)
    ensures var s' := Touched(s, policy, op); SysInv(s') && (HandKnown(s) ==> (HandKnown(s') <==> !BringingLosesHand(s, policy, op.pid, op.vpn)))
    ensures var s' := Touched(s, policy, op);
      && s'.dir == s.dir && s'.bsmap == s.bsmap
      && forall p, v :: Mapped(s, p, v) ==> Mem(s', p, v) == if op.Store? && (p, v) == (op.pid, op.vpn) then op.pg else Mem(s, p, v)
  {
    var b := Brought(s, policy, op.pid, op.vpn);
    BroughtKeeps(s, policy, op.pid, op.vpn);
    FrameStores(s, policy, op.pid, op.vpn);
    AccessChanges(b.s, op.pid, op.vpn, op.Store?, if op.Store? then op.pg else b.s.data[b.frame]);
    forall p, v | Mapped(s, p, v)
      ensures Mem(Touched(s, policy, op), p, v) == if op.Store? && (p, v) == (op.pid, op.vpn) then op.pg else Mem(s, p, v)
    {
      assert Mapped(b.s, p, v);
    }
  }

  lemma BeginKeeps(s: Vm, policy: int, pid: int, hsize: nat)
    requires SysInv(s) && pid > 0 && pid !in s.dir && hsize <= 200 * VmProcesses.FreeStores(s.bstab) && GetFrame(s, policy, PAGE_DIR, pid, 0).Got?
    ensures var s' := Begun(s, policy, pid, hsize);
      && SysInv(s') && pid in s'.dir && (forall v :: 4096 <= v < 4096 + hsize ==> Mapped(s', pid, v))
      && (forall p :: p > 0 && p != pid ==> Undisturbed(s, s', p))
    ensures HandKnown(s) ==> (HandKnown(Begun(s, policy, pid, hsize)) <==> !LosesHand(s, policy, PAGE_DIR))
  {
    GetFrameKeeps(s, policy, PAGE_DIR, pid, 0);
    StoresStay(s, policy, PAGE_DIR, pid, 0);
    var g := GetFrame(s, policy, PAGE_DIR, pid, 0);
    var s1 := DirMapped(g.s, g.frame, pid);
    DirMappedKeeps(g.s, g.frame, pid);
    NoneResident(s, pid);
    assert VmProcesses.Fresh(s1, pid);
    VmProcesses.HeapMapped(s1, pid, hsize, 0);
    MapHeapFrames(s1, pid, hsize, 0);
    if HandKnown(s) {
      FrameHand(s, policy, PAGE_DIR, pid, 0);
    }
    SameMemoryTrans(s, g.s, s1);
    forall p | p > 0 && p != pid
      ensures Undisturbed(s, Begun(s, policy, pid, hsize), p)
    {
      forall v | Mapped(s, p, v)
        ensures Mapped(Begun(s, policy, pid, hsize), p, v) && Mem(Begun(s, policy, pid, hsize), p, v) == Mem(s, p, v)
      {
        assert Mapped(s1, p, v);
      }
    }
  }

  /** Mapping a heap touches only the stores. */
  lemma {:induction false} MapHeapFrames(s: Vm, pid: int, remain: nat, t: nat)
    requires |s.bsmap| == |s.bstab|
    ensures var s' := VmProcesses.MapHeap(s, pid, remain, t); s' == s.(bsmap := s'.bsmap, bstab := s'.bstab)
    decreases remain
  {
    if remain > MAX_PAGES_PER_BS {
      MapHeapFrames(VmProcesses.MapStore(s, pid, MAX_PAGES_PER_BS, t * 200), pid, remain - MAX_PAGES_PER_BS, t + 1);
    }
  }

  /** Only the directory of the process goes. */
  lemma {:induction false} KillDirs(s: Vm, pid: int, n: nat)
    requires VmInv(s, pid) && Quiet(s) && pid > 0 && n <= |s.own|
    ensures var s' := VmProcesses.KillFrames(s, pid, n); s'.bstab == s.bstab && forall p :: p != pid && p in s.dir ==> p in s'.dir
  {
    if n > 0 {
      KillDirs(s, pid, n - 1);
    }
  }

  lemma EndKeeps(s: Vm, pid: int)
    requires SysInv(s) && pid > 0
    ensures VmInv(s, pid)
    ensures var s' := VmProcesses.Kill(s, pid);
      && SysInv(s') && (forall v :: !Mapped(s', pid, v))
      && (forall p :: p > 0 && p != pid ==> Undisturbed(s, s', p))
  {
    VmProcesses.KillFreesAll(s, pid);
    KillDirs(s, pid, |s.own|);
    VmProcesses.KillFramesKeeps(s, pid, |s.own|);
  }

  /** The event leaves a hand that was known on an entry of no list: FIFO takes the page under it for a
      table or a directory, or its page belongs to a process that ends. */
  ghost predicate EventLosesHand(s: Vm, policy: int, e: Event) {
    match e
    case Use(op) => BringingLosesHand(s, policy, op.pid, op.vpn)
    case Begin(_, _) => LosesHand(s, policy, PAGE_DIR)
    case End(pid) => 0 <= s.hand < |s.own| && VmProcesses.OwnerPid(s.own[s.hand]) == pid
    case Policy(_) => false
  }

  /** Those are all the ways in which the hand is lost. */
  lemma HandKept(s: Vm, policy: int, e: Event)
    requires Can(s, policy, e) && HandKnown(s)
    ensures HandKnown(Next(s, policy, e).0) <==> !EventLosesHand(s, policy, e)
  {
    hide Touched, CanTouch, Begun, VmProcesses.Kill, Mapped;
    match e
    case Use(op) => UseKeeps(s, policy, op);
    case Begin(pid, hsize) => BeginKeeps(s, policy, pid, hsize);
    case End(pid) => VmProcesses.KillFreesAll(s, pid);
    case Policy(_) =>
  }

  // ---- runs

  ghost predicate Legal(s: Vm, policy: int, es: seq<Event>)
    decreases |es|
  {
    es == [] || (Can(s, policy, es[0]) && Legal(Next(s, policy, es[0]).0, Next(s, policy, es[0]).1, es[1..]))
  }

  ghost function After(s: Vm, policy: int, es: seq<Event>): Vm
    requires Legal(s, policy, es)
    decreases |es|
  {
    if es == [] then s else After(Next(s, policy, es[0]).0, Next(s, policy, es[0]).1, es[1..])
  }

  /** The memory of one process. */
  ghost function Own(s: Vm, p: int): imap<int, Page>
    requires Sized(s)
  {
    imap v | Mapped(s, p, v) :: Mem(s, p, v)
  }

  /** The pages m of process p after a run in which only the process's own stores count. */
  function OwnAfter(m: imap<int, Page>, p: int, es: seq<Event>): imap<int, Page> {
    if es == [] then m
    else
      var e := es[0];
      OwnAfter(if e.Use? && e.op.Store? && e.op.pid == p then m[e.op.vpn := e.op.pg] else m, p, es[1..])
  }

  lemma UndisturbedOwn(s: Vm, s': Vm, p: int)
    requires Sized(s) && Sized(s') && Undisturbed(s, s', p) && forall v :: Mapped(s', p, v) ==> Mapped(s, p, v)
    ensures Own(s', p) == Own(s, p)
  {
  }

  lemma StoredOwn(s: Vm, s': Vm, op: MemOp, p: int)
    requires Sized(s) && Sized(s') && s'.bsmap == s.bsmap && Mapped(s, op.pid, op.vpn)
    requires forall q, v :: Mapped(s, q, v) ==> Mem(s', q, v) == if op.Store? && (q, v) == (op.pid, op.vpn) then op.pg else Mem(s, q, v)
    ensures Own(s', p) == if op.Store? && op.pid == p then Own(s, p)[op.vpn := op.pg] else Own(s, p)
  {
    hide Mem, Sized, FindStore;
    var m := if op.Store? && op.pid == p then Own(s, p)[op.vpn := op.pg] else Own(s, p);
    assert forall v :: Mapped(s', p, v) <==> Mapped(s, p, v);
    forall v
      ensures (v in Own(s', p) <==> v in m) && (v in m ==> Own(s', p)[v] == m[v])
    {
      assert Mapped(s, p, v) ==> Mem(s', p, v) == if op.Store? && (p, v) == (op.pid, op.vpn) then op.pg else Mem(s, p, v);
    }
  }

  lemma UseOwn(s: Vm, policy: int, op: MemOp, p: int)
    requires SysInv(s) && CanTouch(s, policy, op)
    ensures Sized(s) && Sized(Touched(s, policy, op)) && Mapped(s, op.pid, op.vpn)
    ensures op.vpn in Own(s, op.pid) && Own(s, op.pid)[op.vpn] == Mem(s, op.pid, op.vpn)
    ensures Own(Touched(s, policy, op), p) == if op.Store? && op.pid == p then Own(s, p)[op.vpn := op.pg] else Own(s, p)
  {
    hide Touched;
    UseKeeps(s, policy, op);
    StoredOwn(s, Touched(s, policy, op), op, p);
  }

  /** What is mapped for p afterwards was mapped before. */
  lemma NoMoreMapped(s: Vm, policy: int, e: Event, p: int)
    requires Can(s, policy, e) && p > 0 && ((e.Begin? && e.pid != p) || (e.End? && e.pid != p))
    ensures forall v :: Mapped(Next(s, policy, e).0, p, v) ==> Mapped(s, p, v)
  {
    if e.Begin? {
      StoresStay(s, policy, PAGE_DIR, e.pid, 0);
      GetFrameKeeps(s, policy, PAGE_DIR, e.pid, 0);
      var g := GetFrame(s, policy, PAGE_DIR, e.pid, 0);
      forall v
        ensures Mapped(Next(s, policy, e).0, p, v) ==> Mapped(s, p, v)
      {
        HeapOther(DirMapped(g.s, g.frame, e.pid), e.pid, e.hsize, 0, p, v);
      }
    } else {
      VmProcesses.Dying(s, e.pid);
      VmProcesses.KillFramesKeeps(s, e.pid, |s.own|);
      forall v
        ensures Mapped(Next(s, policy, e).0, p, v) ==> Mapped(s, p, v)
      {
        VmProcesses.FindStoreOther(s.bsmap, Next(s, policy, e).0.bsmap, e.pid, p, v, 0);
      }
    }
  }

  /** Mapping a heap leaves the stores of the others where they are. */
  lemma {:induction false} HeapOther(s: Vm, pid: int, remain: nat, t: nat, p: int, v: int)
    requires |s.bsmap| == |s.bstab| && VmProcesses.SpareUnmapped(s) && p > 0 && p != pid && pid > 0
    ensures FindStore(VmProcesses.MapHeap(s, pid, remain, t).bsmap, p, v, 0) == FindStore(s.bsmap, p, v, 0)
    decreases remain
  {
    var n := if remain > MAX_PAGES_PER_BS then MAX_PAGES_PER_BS else remain;
    var s1 := VmProcesses.MapStore(s, pid, n, t * 200);
    VmProcesses.FindStoreOther(s.bsmap, s1.bsmap, pid, p, v, 0);
    if remain > MAX_PAGES_PER_BS {
      HeapOther(s1, pid, remain - MAX_PAGES_PER_BS, t + 1, p, v);
    }
  }

  /** No event but its own stores changes a process's pages, as long as it lives. */
  lemma EventOwn(s: Vm, policy: int, e: Event, p: int)
    requires Can(s, policy, e) && p > 0 && p in s.dir && e != End(p)
    ensures var s' := Next(s, policy, e).0;
      && SysInv(s') && p in s'.dir
      && Own(s', p) == if e.Use? && e.op.Store? && e.op.pid == p then Own(s, p)[e.op.vpn := e.op.pg] else Own(s, p)
  {
    hide Touched, CanTouch, Own, Begun, VmProcesses.Kill, HandKnown, Mapped;
    var s' := Next(s, policy, e).0;
    match e
    case Use(op) =>
      UseKeeps(s, policy, op);
      UseOwn(s, policy, op, p);
    case Begin(pid, hsize) =>
      BeginKeeps(s, policy, pid, hsize);
      NoMoreMapped(s, policy, e, p);
      UndisturbedOwn(s, s', p);
    case End(pid) =>
      EndKeeps(s, pid);
      NoMoreMapped(s, policy, e, p);
      UndisturbedOwn(s, s', p);
    case Policy(_) =>
  }

  datatype Seen = Seen(pid: int, pg: Page)

  /** What the accesses of a run see. */
  ghost function Trace(s: Vm, policy: int, es: seq<Event>): seq<Seen>
    requires Legal(s, policy, es)
    decreases |es|
  {
    if es == [] then []
    else
      var e := es[0];
      (if !e.Use? then []
       else [Seen(e.op.pid, if e.op.Store? then e.op.pg else Mem(s, e.op.pid, e.op.vpn))]) + Trace(Next(s, policy, e).0, Next(s, policy, e).1, es[1..])
  }

  /** The part of a trace that is process p's. */
  function Of(tr: seq<Seen>, p: int): seq<Page> {
    if tr == [] then [] else (if tr[0].pid == p then [tr[0].pg] else []) + Of(tr[1..], p)
  }

  /** What process p's accesses see if its own stores alone count. */
  ghost function OwnTrace(m: imap<int, Page>, p: int, es: seq<Event>): seq<Page>
    requires forall i :: 0 <= i < |es| && es[i].Use? && es[i].op.pid == p ==> es[i].op.vpn in m
  {
    if es == [] then []
    else
      var e := es[0];
      assert forall i :: 0 <= i < |es[1..]| ==> es[1..][i] == es[i + 1];
      if e.Use? && e.op.pid == p then
        [if e.op.Store? then e.op.pg else m[e.op.vpn]] + OwnTrace(if e.op.Store? then m[e.op.vpn := e.op.pg] else m, p, es[1..])
      else OwnTrace(m, p, es[1..])
  }

  lemma OfMore(tr: seq<Seen>, x: Seen, p: int)
    ensures Of([x] + tr, p) == (if x.pid == p then [x.pg] else []) + Of(tr, p)
  {
    assert ([x] + tr)[1..] == tr;
  }

  /** Isolation: over any run of accesses by anybody, of processes that begin and end, with any page
      replacement, the memory of a process that lives through it is what its own stores make it, and
      so is everything that it sees. */
  lemma {:induction false} Isolation(s: Vm, policy: int, es: seq<Event>, p: int)
    requires SysInv(s) && Legal(s, policy, es) && p > 0 && p in s.dir && End(p) !in es
    ensures SysInv(After(s, policy, es)) && Own(After(s, policy, es), p) == OwnAfter(Own(s, p), p, es)
    ensures forall i :: 0 <= i < |es| && es[i].Use? && es[i].op.pid == p ==> es[i].op.vpn in Own(s, p)
    ensures Of(Trace(s, policy, es), p) == OwnTrace(Own(s, p), p, es)
    decreases |es|
  {
    hide Touched, CanTouch, Own, Begun, VmProcesses.Kill, HandKnown, Mapped, Next;
    if es != [] {
      var e, n := es[0], Next(s, policy, es[0]);
      EventOwn(s, policy, e, p);
      assert End(p) !in es[1..];
      Isolation(n.0, n.1, es[1..], p);
      forall i | 0 <= i < |es| && es[i].Use? && es[i].op.pid == p
        ensures es[i].op.vpn in Own(s, p)
      {
        if i == 0 {
          UseOwn(s, policy, e.op, p);
        } else {
          assert es[1..][i - 1] == es[i];
          if e.Use? && e.op.pid == p {
            UseOwn(s, policy, e.op, p);
          }
        }
      }
      if e.Use? {
        UseOwn(s, policy, e.op, p);
        assert Sized(s) && Mapped(s, e.op.pid, e.op.vpn);
        OfMore(Trace(n.0, n.1, es[1..]), Seen(e.op.pid, if e.op.Store? then e.op.pg else Mem(s, e.op.pid, e.op.vpn)), p);
      } else {
        assert [] + Trace(n.0, n.1, es[1..]) == Trace(n.0, n.1, es[1..]);
      }
    }
  }

  /** One event on the tables and frames. */
  method Do(ps: PagingSystem, e: Event) returns (got: Page)
    requires ps.Valid() && Can(ps.st, ps.currpolicy, e)
    modifies ps, ps.ivptab, ps.links, ps.mem, ps.bsmap, ps.bstab
    ensures ps.Valid() && (ps.st, ps.currpolicy) == Next(old(ps.st), old(ps.currpolicy), e)
    ensures e.Use? ==> Sized(old(ps.st)) && Mapped(old(ps.st), e.op.pid, e.op.vpn) && got == if e.op.Store? then e.op.pg else Mem(old(ps.st), e.op.pid, e.op.vpn)
  {
    got := seq(4096, i => 0);
    match e
    case Use(op) =>
      var done;
      done, got := Touch(ps, op);
    case Begin(pid, hsize) =>
      NoneResident(ps.st, pid);
      var _ := ps.Vcreate(pid, hsize);
    case End(pid) => ps.Kill(pid);
    case Policy(p) => var _ := ps.Srpolicy(p);
  }

  /** What is left of a run after its first i events, and what those that follow see. */
  lemma RunFrom(s: Vm, policy: int, es: seq<Event>, i: nat)
    requires i <= |es| && Legal(s, policy, es[i..])
    ensures i == |es| ==> After(s, policy, es[i..]) == s && Trace(s, policy, es[i..]) == []
    ensures i < |es| ==>
      && Can(s, policy, es[i])
      && var n := Next(s, policy, es[i]);
         && Legal(n.0, n.1, es[i + 1..]) && After(s, policy, es[i..]) == After(n.0, n.1, es[i + 1..])
         && (es[i].Use? ==> Sized(s) && Mapped(s, es[i].op.pid, es[i].op.vpn))
         && var t := Trace(n.0, n.1, es[i + 1..]);
            Trace(s, policy, es[i..]) ==
              if !es[i].Use? then t
              else [Seen(es[i].op.pid, if es[i].op.Store? then es[i].op.pg else Mem(s, es[i].op.pid, es[i].op.vpn))] + t
  {
    hide Next, Touched;
    if i < |es| {
      assert es[i..][0] == es[i] && es[i..][1..] == es[i + 1..];
      var n := Next(s, policy, es[i]);
      assert [] + Trace(n.0, n.1, es[i + 1..]) == Trace(n.0, n.1, es[i + 1..]);
    }
  }

  /** A run on the tables and frames. */
  method Perform(ps: PagingSystem, es: seq<Event>) returns (tr: seq<Seen>)
    requires ps.Valid() && Legal(ps.st, ps.currpolicy, es)
    modifies ps, ps.ivptab, ps.links, ps.mem, ps.bsmap, ps.bstab
    ensures ps.Valid() && ps.st == After(old(ps.st), old(ps.currpolicy), es) && tr == Trace(old(ps.st), old(ps.currpolicy), es)
  {
    hide Can, Next, Legal, After, Trace, Mem, Mapped, Sized;
    tr := [];
    var i := 0;
    assert es[0..] == es;
    while i < |es|
      invariant 0 <= i <= |es| && ps.Valid() && Legal(ps.st, ps.currpolicy, es[i..])
      invariant After(ps.st, ps.currpolicy, es[i..]) == After(old(ps.st), old(ps.currpolicy), es)
      invariant tr + Trace(ps.st, ps.currpolicy, es[i..]) == Trace(old(ps.st), old(ps.currpolicy), es)
    {
      RunFrom(ps.st, ps.currpolicy, es, i);
      var got := Do(ps, es[i]);
      if es[i].Use? {
        tr := tr + [Seen(es[i].op.pid, got)];
      }
      i := i + 1;
    }
    RunFrom(ps.st, ps.currpolicy, es, i);
  }
}
