/** The backing stores over whole runs: every store is free or belongs to a process, and none is lost. */
module VmStores {
  import opened BackingStore
  import opened VmSpec
  import opened VmSteps
  import opened VmFaults
  import opened VmProcesses
  import opened Paging
  import opened VmRuns
  import opened VmSystem

  predicate IsFree(b: Bs) { !b.isallocated && !b.isopen }

  /** The store can be handed out and is mapped for nobody, or it is mapped for a process that alone
      keeps it. */
  predicate StoreKnown(m: Bsent, b: Bs) { if m.pid > 0 then b.isallocated && b.usecount == 0 else IsFree(b) && m == Bsent(false, 0, 0, 0) }

  ghost predicate Accounted(s: Vm) {
    |s.bsmap| == |s.bstab| && forall i :: 0 <= i < |s.bstab| ==> StoreKnown(s.bsmap[i], s.bstab[i])
  }

  lemma {:induction false} HeapAccounted(s: Vm, pid: int, remain: nat, t: nat)
    requires Accounted(s) && pid > 0
    ensures Accounted(MapHeap(s, pid, remain, t))
    decreases remain
  {
    if remain > MAX_PAGES_PER_BS {
      HeapAccounted(MapStore(s, pid, MAX_PAGES_PER_BS, t * 200), pid, remain - MAX_PAGES_PER_BS, t + 1);
    }
  }

  lemma UseAccounted(s: Vm, policy: int, op: MemOp)
    requires SysInv(s) && CanTouch(s, policy, op) && Accounted(s)
    ensures Accounted(Touched(s, policy, op))
  {
    hide VmInv, Quiet, Brought, Mapped;
    BroughtKeeps(s, policy, op.pid, op.vpn);
    FrameStores(s, policy, op.pid, op.vpn);
  }

  lemma BeginAccounted(s: Vm, policy: int, pid: int, hsize: nat)
    requires VmInv(s, -1) && Quiet(s) && pid > 0 && GetFrame(s, policy, PAGE_DIR, pid, 0).Got? && Accounted(s)
    ensures Accounted(Begun(s, policy, pid, hsize))
  {
    hide VmInv, Quiet, GetFrame;
    GetFrameKeeps(s, policy, PAGE_DIR, pid, 0);
    StoresStay(s, policy, PAGE_DIR, pid, 0);
    var g := GetFrame(s, policy, PAGE_DIR, pid, 0);
    HeapAccounted(DirMapped(g.s, g.frame, pid), pid, hsize, 0);
  }

  lemma EndAccounted(s: Vm, pid: int)
    requires VmInv(s, pid) && Quiet(s) && pid > 0 && Accounted(s)
    ensures Accounted(VmProcesses.Kill(s, pid))
  {
    hide VmInv, Quiet;
    KillFramesKeeps(s, pid, |s.own|);
    KillDirs(s, pid, |s.own|);
  }

  lemma EventAccounted(s: Vm, policy: int, e: Event)
    requires Can(s, policy, e) && Accounted(s)
    ensures Accounted(Next(s, policy, e).0)
  {
    hide Accounted, Touched, CanTouch, Begun, VmProcesses.Kill, Mapped;
    match e
    case Use(op) => UseAccounted(s, policy, op);
    case Begin(pid, hsize) => BeginAccounted(s, policy, pid, hsize);
    case End(pid) =>
      Dying(s, pid);
      EndAccounted(s, pid);
    case Policy(_) =>
  }

  /** The stores that are mapped for a process. */
  function Held(bsmap: seq<Bsent>): nat {
    if bsmap == [] then 0 else Held(bsmap[..|bsmap| - 1]) + if bsmap[|bsmap| - 1].pid > 0 then 1 else 0
  }

  lemma {:induction false} HeldAndFree(bsmap: seq<Bsent>, bstab: seq<Bs>)
    requires |bsmap| == |bstab| && forall i :: 0 <= i < |bstab| ==> StoreKnown(bsmap[i], bstab[i])
    ensures FreeStores(bstab) + Held(bsmap) == |bstab|
  {
    if bstab != [] {
      HeldAndFree(bsmap[..|bsmap| - 1], bstab[..|bstab| - 1]);
    }
  }

  lemma {:induction false} NoneHeld(bsmap: seq<Bsent>)
    requires forall i :: 0 <= i < |bsmap| ==> bsmap[i].pid <= 0
    ensures Held(bsmap) == 0
  {
    if bsmap != [] {
      NoneHeld(bsmap[..|bsmap| - 1]);
    }
  }

  /** Over every run of accesses, of processes that begin and end, and of policy changes: the stores that
      can be handed out and those that processes hold are all the stores there are; once nobody holds
      one, all of them can be handed out again. */
  lemma {:induction false} NoStoreLost(s: Vm, policy: int, es: seq<Event>)
    requires Legal(s, policy, es) && Accounted(s)
    ensures var s' := After(s, policy, es);
      && Accounted(s') && FreeStores(s'.bstab) + Held(s'.bsmap) == |s'.bstab|
      && ((forall i :: 0 <= i < |s'.bsmap| ==> s'.bsmap[i].pid <= 0) ==> FreeStores(s'.bstab) == |s'.bstab|)
    decreases |es|
  {
    hide Can, Next;
    if es == [] {
      HeldAndFree(s.bsmap, s.bstab);
      if forall i :: 0 <= i < |s.bsmap| ==> s.bsmap[i].pid <= 0 {
        NoneHeld(s.bsmap);
      }
    } else {
      EventAccounted(s, policy, es[0]);
      NoStoreLost(Next(s, policy, es[0]).0, Next(s, policy, es[0]).1, es[1..]);
    }
  }
}
