/** The system calls, each as the step that the calling process takes. */
module ProcessCalls {
  import opened ProcessSpec
  import opened ProcessSteps

  datatype Event =
    | Wait(s: int)
    | Signal(s: int)
    | Signaln(s: int, count: int)
    | Semcreate(count: int)
    | Semdelete(s: int)
    | Semreset(s: int, count: int)
    | Send(pid: int, msg: int)
    | Receive
    | Recvtime(maxwait: int)
    | Recvclr
    | Suspend(pid: int)
    | Resume(pid: int)
    | Yield
    | Sleepms(delay: int)
    | Kill(pid: int)
    | Create(pid: int, prio: int)
    | Tick
    | Finish

  predicate BadPid(k: Kernel, pid: int) { !(0 <= pid < |k.procs|) || k.procs[pid].state == PrFree }

  predicate BadSem(k: Kernel, s: int) { !(0 <= s < |k.sems|) || !k.sems[s].used }

  function Count(k: Kernel, s: int, c: int): Kernel
    requires 0 <= s < |k.sems|
  {
    k.(sems := k.sems[s := k.sems[s].(count := c)])
  }

  lemma ReschedSized(k: Kernel)
    requires Sized(k)
    ensures Sized(Resched(k).(curr := k.curr)) && |Resched(k).sems| == |k.sems| && |Resched(k).procs| == |k.procs|
  {
  }

  // ---- semaphores

  function WaitStep(k: Kernel, s: int): (Kernel, Ret)
    requires Sized(k)
  {
    if BadSem(k, s) then (k, SysErr)
    else
      var k1 := Count(k, s, k.sems[s].count - 1);
      if k1.sems[s].count < 0 then
        var p := k.procs[k.curr].(state := PrWait, sem := s);
        (Resched(k1.(procs := k.procs[k.curr := p], q := k.q[s := k.q[s] + [k.curr]])), Switched)
      else (k1, Ok)
  }

  /** A signal, without the rescheduling: the first waiter, if there is one, is made ready. */
  function Signalled(k: Kernel, s: int): Kernel
    requires Sized(k) && 0 <= s < |k.sems|
  {
    var k1 := Count(k, s, k.sems[s].count + 1);
    if k.sems[s].count < 0 && k.q[s] != [] && 0 <= k.q[s][0] < |k.procs| then MadeReady(k1, k.q[s][0]) else k1
  }

  function SignalStep(k: Kernel, s: int): (Kernel, Ret)
    requires Sized(k)
  {
    if BadSem(k, s) then (k, SysErr)
    else if k.sems[s].count < 0 then (Resched(Signalled(k, s)), Ok)
    else (Signalled(k, s), Ok)
  }

  function SignalledTimes(k: Kernel, s: int, n: nat): (r: Kernel)
    requires Sized(k) && 0 <= s < |k.sems|
    ensures Sized(r) && |r.sems| == |k.sems| && |r.procs| == |k.procs| && r.curr == k.curr
  {
    if n == 0 then k else Signalled(SignalledTimes(k, s, n - 1), s)
  }

  function SignalnStep(k: Kernel, s: int, count: int): (Kernel, Ret)
    requires Sized(k)
  {
    if BadSem(k, s) || count < 0 then (k, SysErr)
    else
      var k1 := SignalledTimes(k, s, count);
      (if k.sems[s].count < 0 && count > 0 then Resched(k1) else k1, Ok)
  }

  /** All waiters of a semaphore are made ready, first come first. */
  function AllReady(k: Kernel, s: int, n: nat): (r: Kernel)
    requires Sized(k) && 0 <= s < |k.sems|
    ensures Sized(r) && |r.sems| == |k.sems| && |r.procs| == |k.procs| && r.curr == k.curr
  {
    if n == 0 then k
    else
      var k1 := AllReady(k, s, n - 1);
      if k1.q[s] != [] && 0 <= k1.q[s][0] < |k1.procs| then MadeReady(k1, k1.q[s][0]) else k1
  }

  /** semdelete. Its loop leaves the count one above zero or above what it was. */
  function SemdeleteStep(k: Kernel, s: int): (Kernel, Ret)
    requires Sized(k)
  {
    if BadSem(k, s) then (k, SysErr)
    else
      var c := k.sems[s].count;
      var k1 := AllReady(k, s, |k.q[s]|);
      var k2 := k1.(sems := k1.sems[s := Sem(false, if c < 0 then 1 else c + 1)]);
      (if k.q[s] != [] then Resched(k2) else k2, Ok)
  }

  function SemresetStep(k: Kernel, s: int, count: int): (Kernel, Ret)
    requires Sized(k)
  {
    if count < 0 || BadSem(k, s) then (k, SysErr)
    else
      var k1 := Count(AllReady(k, s, |k.q[s]|), s, count);
      (if k.q[s] != [] then Resched(k1) else k1, Ok)
  }

  /** newsem: the first unused semaphore from id on, or -1. */
  function FindSem(sems: seq<Sem>, id: int, n: nat): (r: int)
    requires 0 <= id < |sems|
    ensures r == -1 || (0 <= r < |sems| && !sems[r].used)
    decreases n
  {
    if n == 0 then -1
    else if !sems[id].used then id
    else FindSem(sems, if id + 1 >= |sems| then 0 else id + 1, n - 1)
  }

  function SemcreateStep(k: Kernel, count: int): (Kernel, Ret)
    requires Sized(k)
  {
    var s := FindSem(k.sems, k.nextsem, |k.sems|);
    if count < 0 || s == -1 then (k, SysErr)
    else (k.(sems := k.sems[s := Sem(true, count)], nextsem := if s + 1 >= |k.sems| then 0 else s + 1), Value(s))
  }

  // ---- the sleep queue

  /** insertd: where a delay goes, and what is left of it there. */
  function DeltaPlace(l: seq<int>, key: seq<int>, d: int): (r: (nat, int))
    ensures r.0 <= |l|
  {
    if l == [] then (0, d)
    else if 0 <= l[0] < |key| && key[l[0]] <= d then
      var r := DeltaPlace(l[1..], key, Int32(d - key[l[0]]));
      (r.0 + 1, r.1)
    else (0, d)
  }

  /** The keys after insertd: what was left of the delay comes off the next process's key. */
  function KeyAfter(l: seq<int>, key: seq<int>, pid: int, j: nat, rest: int): seq<int>
    requires 0 <= pid < |key|
  {
    var key1 := key[pid := rest];
    if j < |l| && 0 <= l[j] < |key1| then key1[l[j] := Int32(key1[l[j]] - rest)] else key1
  }

  /** The process goes to sleep for d ticks, in the given state. */
  function Asleep(k: Kernel, pid: int, d: int, state: PrState): Kernel
    requires Sized(k) && 0 <= pid < |k.procs|
  {
    var l := k.q[SleepQ(k)];
    var (j, rest) := DeltaPlace(l, k.key, d);
    SetState(k.(q := k.q[SleepQ(k) := InsertAt(l, j, pid)], key := KeyAfter(l, k.key, pid, j, rest), wake := k.wake[pid := k.now + d]), pid, state)
  }

  function PlaceOf(l: seq<int>, x: int): (r: int)
    ensures -1 <= r < |l| && (r >= 0 ==> l[r] == x) && (r == -1 <==> x !in l)
  {
    if l == [] then -1
    else if l[0] == x then 0
    else
      var r := PlaceOf(l[1..], x);
      assert l == [l[0]] + l[1..];
      if r == -1 then -1 else r + 1
  }

  /** The keys once what a process had still to wait has gone to the next one. */
  function KeyGiven(l: seq<int>, key: seq<int>, pid: int): seq<int>
    requires 0 <= pid < |key|
  {
    var j := PlaceOf(l, pid);
    if 0 <= j < |l| - 1 && 0 <= l[j + 1] < |key| then key[l[j + 1] := Int32(key[l[j + 1]] + key[pid])] else key
  }

  /** unsleep, but for the unlinking. */
  function Unslept(k: Kernel, pid: int): Kernel
    requires Sized(k) && 0 <= pid < |k.procs|
  {
    k.(key := KeyGiven(k.q[SleepQ(k)], k.key, pid))
  }

  function SleepStep(k: Kernel, delay: int): (Kernel, Ret)
    requires Sized(k)
  {
    if delay == 0 then (Resched(k), Ok)
    else (Resched(Asleep(k, k.curr, Int32(delay), PrSleep)), Switched)
  }

  // ---- messages

  /** The current process takes its message. */
  function Took(k: Kernel): (Kernel, Ret)
    requires Sized(k)
  {
    var c, p := k.curr, k.procs[k.curr];
    (k.(procs := k.procs[c := p.(hasmsg := false)], pend := k.pend[c := Nothing], log := k.log[c := k.log[c].(got := k.log[c].got + [p.msg])]), Value(p.msg))
  }

  function Delivered(k: Kernel, pid: int, msg: int): Kernel
    requires Sized(k) && 0 <= pid < |k.procs|
  {
    k.(procs := k.procs[pid := k.procs[pid].(hasmsg := true, msg := msg)], log := k.log[pid := k.log[pid].(sent := k.log[pid].sent + [msg])])
  }

  function SendStep(k: Kernel, pid: int, msg: int): (Kernel, Ret)
    requires Sized(k)
  {
    if BadPid(k, pid) || k.procs[pid].hasmsg then (k, SysErr)
    else
      var k1 := Delivered(k, pid, msg);
      if k.procs[pid].state == PrRecv then (Resched(MadeReady(k1, pid)), Ok)
      else if k.procs[pid].state == PrRectim then (Resched(MadeReady(Unslept(k1, pid), pid)), Ok)
      else (k1, Ok)
  }

  function ReceiveStep(k: Kernel): (Kernel, Ret)
    requires Sized(k)
  {
    if k.procs[k.curr].hasmsg then Took(k)
    else (Resched(SetState(k.(pend := k.pend[k.curr := InReceive]), k.curr, PrRecv)), Switched)
  }

  function RecvtimeStep(k: Kernel, maxwait: int): (Kernel, Ret)
    requires Sized(k)
  {
    if maxwait < 0 then (k, SysErr)
    else if k.procs[k.curr].hasmsg then Took(k)
    else (Resched(Asleep(k.(pend := k.pend[k.curr := InRecvtime]), k.curr, maxwait, PrRectim)), Switched)
  }

  function RecvclrStep(k: Kernel): (Kernel, Ret)
    requires Sized(k)
  {
    if k.procs[k.curr].hasmsg then Took(k) else (k, Ok)
  }

  // ---- processes

  function SuspendStep(k: Kernel, pid: int): (Kernel, Ret)
    requires Sized(k)
  {
    if BadPid(k, pid) || pid == NULLPROC || k.procs[pid].state !in {PrCurr, PrReady} then (k, SysErr)
    else if k.procs[pid].state == PrReady then (SetState(OffQueue(k, pid), pid, PrSusp), Value(k.procs[pid].prio))
    else (Resched(SetState(k, pid, PrSusp)), Value(k.procs[pid].prio))
  }

  function ResumeStep(k: Kernel, pid: int): (Kernel, Ret)
    requires Sized(k)
  {
    if BadPid(k, pid) || k.procs[pid].state != PrSusp then (k, SysErr)
    else (Resched(MadeReady(k, pid)), Value(k.procs[pid].prio))
  }

  /** What a killed process gives back: a sleeper its key, a waiter its place. */
  function Loosened(k: Kernel, pid: int): Kernel
    requires Sized(k) && 0 <= pid < |k.procs|
  {
    var state := k.procs[pid].state;
    if state == PrSleep || state == PrRectim then Unslept(k, pid)
    else if state == PrWait && 0 <= k.procs[pid].sem < |k.sems| then Count(k, k.procs[pid].sem, k.sems[k.procs[pid].sem].count + 1)
    else k
  }

  /** kill, as far as queues go. A waiter gives its place at the semaphore back. */
  function KillStep(k: Kernel, pid: int): (Kernel, Ret)
    requires Sized(k)
  {
    if BadPid(k, pid) || pid == NULLPROC then (k, SysErr)
    else
      if k.procs[pid].state == PrCurr then (Resched(SetState(k, pid, PrFree)), Switched)
      else (SetState(OffQueue(Loosened(k, pid), pid), pid, PrFree), Ok)
  }

  /** create, of a process that newpid found free. */
  function CreateStep(k: Kernel, pid: int, prio: int): (Kernel, Ret)
    requires Sized(k) && 0 <= pid < |k.procs|
  {
    if prio < 1 then (k, SysErr)
    else (k.(procs := k.procs[pid := Proc(PrSusp, prio, -1, false, k.procs[pid].msg)], pend := k.pend[pid := Nothing], log := k.log[pid := Log([], [])]), Value(pid))
  }

  // ---- the clock

  /** The first sleeper, without its key, is made ready. */
  function Woken(k: Kernel): Kernel
    requires Sized(k)
  {
    var l := k.q[SleepQ(k)];
    if l != [] && 0 <= l[0] < |k.procs| then MadeReady(k, l[0]) else k
  }

  function WokenTimes(k: Kernel, n: nat): (r: Kernel)
    requires Sized(k)
    ensures Sized(r) && |r.sems| == |k.sems| && r.curr == k.curr && |r.procs| == |k.procs|
  {
    if n == 0 then k else Woken(WokenTimes(k, n - 1))
  }

  /** How many processes at the front of a delta list have nothing left to wait. */
  function Due(l: seq<int>, key: seq<int>): (n: nat)
    ensures n <= |l|
  {
    if l != [] && 0 <= l[0] < |key| && key[l[0]] <= 0 then 1 + Due(l[1..], key) else 0
  }

  /** clkhandler, as far as the sleepers go: the first one's key counts down, and wakeup makes ready
      everybody at the front whose key is not positive. */
  function Ticked(k: Kernel): (r: Kernel)
    requires Sized(k)
    ensures Sized(r) && |r.sems| == |k.sems| && r.curr == k.curr && |r.procs| == |k.procs|
  {
    var l := k.q[SleepQ(k)];
    var k1 := k.(now := k.now + 1);
    if l == [] || !(0 <= l[0] < |k.procs|) then k1
    else
      var k2 := k1.(key := k.key[l[0] := Int32(k.key[l[0]] - 1)]);
      WokenTimes(k2, Due(l, k2.key))
  }

  /** The rest of clkhandler: the time slice. */
  function Sliced(k: Kernel): Kernel
    requires Sized(k)
  {
    var p := k.preempt - 1;
    if p <= 0 then Resched(k.(preempt := QUANTUM)) else k.(preempt := p)
  }

  /** A clock interrupt. If it wakes somebody who preempts the current process, that process has
      the rest of the handler still to do when it runs again. */
  function TickStep(k: Kernel): (Kernel, Ret)
    requires Sized(k)
  {
    var k1 := Ticked(k);
    var k2 := if |k1.q[SleepQ(k)]| < |k.q[SleepQ(k)]| then Resched(k1) else k1;
    ReschedSized(k1);
    if k2.curr == k.curr then (Sliced(k2), Ok) else (k2.(pend := k2.pend[k.curr := InTick]), Switched)
  }

  function FinishStep(k: Kernel): (Kernel, Ret)
    requires Sized(k)
  {
    match k.pend[k.curr]
    case Nothing => (k, Ok)
    case InReceive => Took(k)
    case InRecvtime => if k.procs[k.curr].hasmsg then Took(k) else (k.(pend := k.pend[k.curr := Nothing]), TimeOut)
    case InTick => (Sliced(k.(pend := k.pend[k.curr := Nothing])), Ok)
  }

  // ---- all steps

  /** What can happen now: a process finishes what it has to before it does anything else; the null
      process makes no call that could block it. */
  predicate Enabled(k: Kernel, e: Event)
    requires Sized(k)
  {
    && (e.Finish? <==> k.pend[k.curr] != Nothing)
    && (e.Wait? || e.Receive? || e.Recvtime? || (e.Sleepms? && e.delay != 0) ==> k.curr != NULLPROC)
    && (e.Sleepms? ==> 0 <= e.delay < 0x1_0000_0000)
    && (e.Recvtime? ==> InInt32(e.maxwait))
    && (e.Create? ==> 0 <= e.pid < |k.procs| && k.procs[e.pid].state == PrFree && -0x8000 <= e.prio < 0x8000)
  }

  function Step(k: Kernel, e: Event): (Kernel, Ret)
    requires Sized(k) && Enabled(k, e)
  {
    match e
    case Wait(s) => WaitStep(k, s)
    case Signal(s) => SignalStep(k, s)
    case Signaln(s, count) => SignalnStep(k, s, count)
    case Semcreate(count) => SemcreateStep(k, count)
    case Semdelete(s) => SemdeleteStep(k, s)
    case Semreset(s, count) => SemresetStep(k, s, count)
    case Send(pid, msg) => SendStep(k, pid, msg)
    case Receive => ReceiveStep(k)
    case Recvtime(maxwait) => RecvtimeStep(k, maxwait)
    case Recvclr => RecvclrStep(k)
    case Suspend(pid) => SuspendStep(k, pid)
    case Resume(pid) => ResumeStep(k, pid)
    case Yield => (Resched(k), Ok)
    case Sleepms(delay) => SleepStep(k, delay)
    case Kill(pid) => KillStep(k, pid)
    case Create(pid, prio) => CreateStep(k, pid, prio)
    case Tick => TickStep(k)
    case Finish => FinishStep(k)
  }
}
