/** Processes as a state machine. Interrupts are off inside a system call, so every call is one
    step up to the point where another process is switched to, and so is a clock tick. */
module ProcessSpec {
  import opened DistinctLists

  const NULLPROC := 0
  const MINKEY := -0x8000_0000
  const QUANTUM := 2

  datatype PrState = PrFree | PrCurr | PrReady | PrRecv | PrSleep | PrSusp | PrWait | PrRectim

  datatype Proc = Proc(state: PrState, prio: int, sem: int, hasmsg: bool, msg: int)

  datatype Sem = Sem(used: bool, count: int)

  /** What a process has still to finish once it runs again: a call, or a clock interrupt. */
  datatype Pending = Nothing | InReceive | InRecvtime | InTick

  /** The messages that send accepted for a process, and those it has got. */
  datatype Log = Log(sent: seq<int>, got: seq<int>)

  /** `q` has the queues of the semaphores, then the ready list, then the sleep queue; `key` is the
      key field of every process. The rest is history: the tick count, every sleeper's wake-up
      tick, and the messages. */
  datatype Kernel = Kernel(procs: seq<Proc>, curr: int, q: seq<seq<int>>, key: seq<int>, sems: seq<Sem>, nextsem: int, preempt: int,
                           pend: seq<Pending>, now: int, wake: seq<int>, log: seq<Log>)

  datatype Ret = Ok | SysErr | Value(v: int) | TimeOut | Switched

  predicate InInt32(x: int) { -0x8000_0000 <= x < 0x8000_0000 }

  /** A sum or difference of two 32-bit keys, as it is stored in 32 bits. */
  function Int32(x: int): int {
    if x < -0x8000_0000 then x + 0x1_0000_0000 else if x < 0x8000_0000 then x else x - 0x1_0000_0000
  }

  function ReadyQ(k: Kernel): int { |k.sems| }

  function SleepQ(k: Kernel): int { |k.sems| + 1 }

  /** The queue that a process's state says it is on, or -1. */
  function QueueOf(k: Kernel, pid: int): int
    requires 0 <= pid < |k.procs|
  {
    match k.procs[pid].state
    case PrReady => ReadyQ(k)
    case PrSleep => SleepQ(k)
    case PrRectim => SleepQ(k)
    case PrWait => k.procs[pid].sem
    case _ => -1
  }

  // ---- queues

  /** Where a new key goes in a list of descending keys: behind those that are not smaller. */
  function Place(l: seq<int>, key: seq<int>, x: int): (j: nat)
    ensures j <= |l|
  {
    if l == [] then 0 else if 0 <= l[0] < |key| && key[l[0]] >= x then 1 + Place(l[1..], key, x) else 0
  }

  function InsertAt(l: seq<int>, j: nat, pid: int): seq<int>
    requires j <= |l|
  {
    l[..j] + [pid] + l[j..]
  }

  // ---- changing one process

  function SetState(k: Kernel, pid: int, s: PrState): Kernel
    requires 0 <= pid < |k.procs|
  {
    k.(procs := k.procs[pid := k.procs[pid].(state := s)])
  }

  /** A process off whatever queue it is on. */
  function OffQueue(k: Kernel, pid: int): Kernel
    requires 0 <= pid < |k.procs|
  {
    var i := QueueOf(k, pid);
    if 0 <= i < |k.q| then k.(q := k.q[i := Without(k.q[i], pid)]) else k
  }

  /** ready, without the rescheduling: the process leaves its queue for the ready list. */
  function MadeReady(k: Kernel, pid: int): Kernel
    requires 0 <= pid < |k.procs| == |k.key| && |k.q| == |k.sems| + 2
  {
    var k1 := SetState(OffQueue(k, pid), pid, PrReady);
    var prio := k.procs[pid].prio;
    var j := Place(k1.q[ReadyQ(k)], k1.key, prio);
    k1.(q := k1.q[ReadyQ(k) := InsertAt(k1.q[ReadyQ(k)], j, pid)], key := k1.key[pid := prio])
  }

  function FirstKey(k: Kernel): int
    requires |k.q| == |k.sems| + 2
  {
    var l := k.q[ReadyQ(k)];
    if l != [] && 0 <= l[0] < |k.key| then k.key[l[0]] else MINKEY
  }

  /** The first process of the ready list becomes current. */
  function Switch(k: Kernel): Kernel
    requires |k.q| == |k.sems| + 2
  {
    var l := k.q[ReadyQ(k)];
    if l == [] || !(0 <= l[0] < |k.procs|) then k.(curr := -1)
    else SetState(k.(q := k.q[ReadyQ(k) := l[1..]], curr := l[0], preempt := QUANTUM), l[0], PrCurr)
  }

  /** resched, when rescheduling is not deferred. */
  function Resched(k: Kernel): Kernel
    requires 0 <= k.curr < |k.procs| == |k.key| && |k.q| == |k.sems| + 2
  {
    if k.procs[k.curr].state == PrCurr then
      if k.procs[k.curr].prio > FirstKey(k) then k else Switch(MadeReady(k, k.curr))
    else Switch(k)
  }

  // ---- the invariant

  ghost predicate Sized(k: Kernel) {
    && |k.procs| == |k.key| == |k.pend| == |k.wake| == |k.log| && 0 <= k.curr < |k.procs|
    && |k.q| == |k.sems| + 2 && 0 <= k.nextsem < |k.sems| && k.preempt > 0
  }

  ghost predicate OnlyHere(k: Kernel, pid: int)
    requires 0 <= pid < |k.procs|
  {
    && -1 <= QueueOf(k, pid) < |k.q|
    && (QueueOf(k, pid) >= 0 ==> pid in k.q[QueueOf(k, pid)])
    && (k.procs[pid].state == PrWait ==> 0 <= k.procs[pid].sem < |k.sems|)
  }

  /** Queue i has each of its processes once, and they are processes that say so. */
  ghost predicate QueueOk(k: Kernel, i: int)
    requires 0 <= i < |k.q|
  {
    Distinct(k.q[i]) && forall a :: 0 <= a < |k.q[i]| ==> 0 <= k.q[i][a] < |k.procs| && QueueOf(k, k.q[i][a]) == i
  }

  /** Every process is on exactly the queue that its state names, or on none. */
  ghost predicate Queued(k: Kernel) {
    && Sized(k)
    && (forall i {:trigger k.q[i]} :: 0 <= i < |k.q| ==> QueueOk(k, i))
    && (forall pid {:trigger k.procs[pid]} :: 0 <= pid < |k.procs| ==> OnlyHere(k, pid))
  }

  /** The ready list is in the order of priorities. */
  ghost predicate Ordered(k: Kernel)
    requires Sized(k)
  {
    var l := k.q[ReadyQ(k)];
    && (forall a :: 0 <= a < |l| && 0 <= l[a] < |k.procs| ==> k.key[l[a]] == k.procs[l[a]].prio)
    && (forall a, b :: 0 <= a < b < |l| && 0 <= l[a] < |k.procs| && 0 <= l[b] < |k.procs| ==> k.procs[l[a]].prio >= k.procs[l[b]].prio)
  }

  /** A semaphore in use is either nonnegative with an empty queue, or has as many waiters as it
      is below zero. */
  ghost predicate SemOk(k: Kernel, s: int)
    requires Sized(k) && 0 <= s < |k.sems|
  {
    && (k.sems[s].used ==> |k.q[s]| == if k.sems[s].count < 0 then -k.sems[s].count else 0)
    && (!k.sems[s].used ==> k.q[s] == [])
  }

  /** What a process's mailbox says agrees with what the process is waiting for. */
  ghost predicate MailOk(k: Kernel, pid: int)
    requires Sized(k) && 0 <= pid < |k.procs|
  {
    var p := k.procs[pid];
    && (p.state in {PrRecv, PrRectim} ==> !p.hasmsg)
    && (p.state == PrRecv <==> k.pend[pid] == InReceive && !p.hasmsg && p.state != PrFree)
    && (p.state == PrRectim ==> k.pend[pid] == InRecvtime)
    && (k.pend[pid] != Nothing && p.state !in {PrFree, PrRecv, PrRectim} ==> p.state in {PrReady, PrCurr, PrSusp})
    && (p.state != PrFree ==> k.log[pid].sent == k.log[pid].got + if p.hasmsg then [p.msg] else [])
  }

  /** Priorities are positive but for the null process, which is current or ready. */
  ghost predicate PrioOk(k: Kernel, pid: int)
    requires Sized(k) && 0 <= pid < |k.procs|
  {
    && (pid != k.curr ==> k.procs[pid].state != PrCurr)
    && (pid == NULLPROC ==> k.procs[pid].prio == 0 && k.procs[pid].state in {PrCurr, PrReady} && k.pend[pid] in {Nothing, InTick})
    && (pid != NULLPROC && k.procs[pid].state != PrFree ==> k.procs[pid].prio > 0)
  }

  /** Holds also between the change that makes a process ready, or blocks it, and the switch. */
  ghost predicate BaseCore(k: Kernel) {
    && Sized(k) && Queued(k) && Ordered(k)
    && (forall s {:trigger SemOk(k, s)} :: 0 <= s < |k.sems| ==> SemOk(k, s))
    && (forall pid {:trigger MailOk(k, pid)} {:trigger PrioOk(k, pid)} :: 0 <= pid < |k.procs| ==> MailOk(k, pid) && PrioOk(k, pid))
  }

  /** Marks the states for which a proof needs Base spelled out. */
  ghost predicate BaseSpelledOut(k: Kernel) { true }

  ghost predicate Base(k: Kernel) {
    Sized(k) && forall x {:trigger BaseSpelledOut(x)} :: x == k ==> BaseCore(x)
  }

  /** No ready process has a higher priority than the current one. */
  ghost predicate Top(k: Kernel)
    requires Sized(k)
  {
    forall pid :: 0 <= pid < |k.procs| && k.procs[pid].state == PrReady ==> k.procs[pid].prio <= k.procs[k.curr].prio
  }

  /** Holds between system calls. */
  ghost predicate Inv(k: Kernel) {
    Base(k) && k.procs[k.curr].state == PrCurr && Top(k)
  }

  // ---- the ready list

  lemma {:induction false} PlaceIs(l: seq<int>, key: seq<int>, x: int)
    requires forall a :: 0 <= a < |l| ==> 0 <= l[a] < |key|
    ensures forall a :: 0 <= a < Place(l, key, x) ==> key[l[a]] >= x
    ensures Place(l, key, x) < |l| ==> key[l[Place(l, key, x)]] < x
  {
    if l != [] && key[l[0]] >= x {
      var t := l[1..];
      PlaceIs(t, key, x);
      forall a | 0 <= a < Place(l, key, x)
        ensures key[l[a]] >= x
      {
        if a > 0 {
          assert l[a] == t[a - 1];
        }
      }
      if Place(l, key, x) < |l| {
        assert l[Place(l, key, x)] == t[Place(t, key, x)];
      }
    }
  }

  /** Taking an element out keeps the order of the others. */
  lemma {:induction false} WithoutOrder(l: seq<int>, x: int, a: int, b: int) returns (a': int, b': int)
    requires Distinct(l) && 0 <= a < b < |Without(l, x)|
    ensures 0 <= a' < b' < |l| && l[a'] == Without(l, x)[a] && l[b'] == Without(l, x)[b]
  {
    if l[0] == x {
      a', b' := a + 1, b + 1;
    } else {
      var t := l[1..];
      assert Distinct(t);
      if a == 0 {
        var c := WithoutAt(t, x, b - 1);
        a', b' := 0, c + 1;
      } else {
        var c, d := WithoutOrder(t, x, a - 1, b - 1);
        a', b' := c + 1, d + 1;
      }
    }
  }

  lemma {:induction false} WithoutAt(l: seq<int>, x: int, a: int) returns (a': int)
    requires 0 <= a < |Without(l, x)|
    ensures 0 <= a' < |l| && l[a'] == Without(l, x)[a]
  {
    if l[0] == x {
      a' := a + 1;
    } else if a == 0 {
      a' := 0;
    } else {
      var c := WithoutAt(l[1..], x, a - 1);
      a' := c + 1;
    }
  }

  lemma InsertAtIs(l: seq<int>, j: nat, pid: int)
    requires Distinct(l) && j <= |l| && pid !in l
    ensures Distinct(InsertAt(l, j, pid)) && |InsertAt(l, j, pid)| == |l| + 1
    ensures forall x :: x in InsertAt(l, j, pid) <==> x in l || x == pid
  {
    var l' := InsertAt(l, j, pid);
    assert l' == l[..j] + [pid] + l[j..];
    assert l == l[..j] + l[j..];
    forall x
      ensures x in l' <==> x in l || x == pid
    {
      assert x in l' <==> x in l[..j] || x == pid || x in l[j..];
      assert x in l <==> x in l[..j] || x in l[j..];
    }
  }
}
