/** Time slices: the clock takes the processor from a process that has equals, and goes round. */
module ProcessSlices {
  import opened DistinctLists
  import opened ProcessSpec
  import opened ProcessSteps
  import opened ProcessCalls
  import opened ProcessKeeps
  import opened ProcessClock
  import opened ProcessRuns
  import opened ProcessForecast
  import Processes

  // ---- ticks that wake nobody

  /** No sleeper is due within n ticks. */
  predicate AllSleepOn(k: Kernel, n: nat)
    requires Sized(k)
  {
    var l := k.q[SleepQ(k)];
    l == [] || (0 <= l[0] < |k.key| && InInt32(k.key[l[0]]) && FirstTick(k.key[l[0]], k.now) > k.now + n)
  }

  /** The processes of the ring have nothing left over from a call or a tick. */
  predicate NothingLeft(k: Kernel, ring: seq<int>) {
    forall a :: 0 <= a < |ring| ==> 0 <= ring[a] < |k.pend| && k.pend[ring[a]] == Nothing
  }

  /** A ring of processes that go round, with nobody waking for n ticks. */
  ghost predicate Turning(k: Kernel, ring: seq<int>, rest: seq<int>, n: nat) {
    Inv(k) && Ring(k, ring, rest) && NothingLeft(k, ring) && AllSleepOn(k, n)
  }

  /** One tick off the slice of the current process. At its end the processor goes to the next of the
      ring, and the process that had it goes behind the others. */
  lemma SliceOff(k: Kernel, ring: seq<int>, rest: seq<int>)
    requires Inv(k) && Ring(k, ring, rest)
    ensures var k' := Sliced(k);
      && Inv(k') && Ring(k', if k.preempt > 1 then ring else Rotated(ring), rest) && k'.preempt == (if k.preempt > 1 then k.preempt - 1 else QUANTUM)
      && k'.pend == k.pend && k'.now == k.now
  {
    hide Place, InsertAt;
    SlicedOk(k);
    if k.preempt <= 1 {
      var k1 := k.(preempt := QUANTUM);
      PreemptBase(k, QUANTUM);
      InvSame(k, k1);
      YieldTurns(k1, ring, rest);
      ReschedKeeps(k1);
    }
  }

  /** Rescheduling touches no sleeper. */
  lemma ReschedKeeps(k: Kernel)
    requires Base(k)
    ensures Sized(Resched(k)) && Resched(k).pend == k.pend && Resched(k).now == k.now && |Resched(k).sems| == |k.sems|
    ensures Resched(k).q[SleepQ(k)] == k.q[SleepQ(k)]
    ensures forall a :: 0 <= a < |k.q[SleepQ(k)]| ==> 0 <= k.q[SleepQ(k)][a] < |k.key| && Resched(k).key[k.q[SleepQ(k)][a]] == k.key[k.q[SleepQ(k)][a]]
    ensures Resched(k).preempt in {k.preempt, QUANTUM}
  {
    ReschedOk(k);
    assert BaseSpelledOut(k);
    Members(k);
    assert PrioOk(k, k.curr);
  }

  lemma SlicedSleep(k: Kernel, n: nat)
    requires Inv(k) && AllSleepOn(k, n)
    ensures Sized(Sliced(k)) && AllSleepOn(Sliced(k), n)
  {
    hide Resched;
    if k.preempt - 1 <= 0 {
      PreemptBase(k, QUANTUM);
      ReschedKeeps(k.(preempt := QUANTUM));
    }
  }

  /** A tick that wakes nobody takes one off the slice, and does nothing else but count. */
  lemma TickIsSlice(k: Kernel, n: nat)
    requires Inv(k) && k.pend[k.curr] == Nothing && AllSleepOn(k, n) && n > 0
    ensures Inv(Counted(k)) && Counted(k) == k.(now := k.now + 1, key := Counted(k).key) && AllSleepOn(Counted(k), n - 1)
    ensures TickStep(k).0 == Sliced(Counted(k))
  {
    hide Resched, WokenTimes;
    Processes.CountParts(k);
    assert BaseSpelledOut(k);
    Members(k);
    var l := k.q[SleepQ(k)];
    if l != [] {
      assert Counted(k).key[l[0]] > 0;
    }
    assert Processes.AfterCount(k) == Counted(k);
  }

  lemma CountedTurns(k: Kernel, ring: seq<int>, rest: seq<int>, n: nat)
    requires Turning(k, ring, rest, n) && n > 0
    ensures Enabled(k, Tick) && Sized(Counted(k)) && Turning(Counted(k), ring, rest, n - 1) && Counted(k).preempt == k.preempt
    ensures Step(k, Tick).0 == Sliced(Counted(k))
  {
    hide Sliced, TickStep, BaseCore, Top;
    assert ring[0] == k.curr;
    TickIsSlice(k, n);
  }

  /** The slice goes on, or the ring turns. */
  lemma SlicedTurns(k: Kernel, ring: seq<int>, rest: seq<int>, n: nat)
    requires Turning(k, ring, rest, n)
    ensures ring != [] && Sized(k) && Turning(Sliced(k), if k.preempt > 1 then ring else Rotated(ring), rest, n)
    ensures Sliced(k).preempt == if k.preempt > 1 then k.preempt - 1 else QUANTUM
  {
    hide Sliced, BaseCore, Top;
    SliceOff(k, ring, rest);
    SlicedSleep(k, n);
    RotatedLeft(k, ring);
  }

  lemma TickTurns(k: Kernel, ring: seq<int>, rest: seq<int>, n: nat)
    requires Turning(k, ring, rest, n) && n > 0
    ensures ring != [] && Sized(k) && Enabled(k, Tick)
    ensures var k' := Step(k, Tick).0;
      && Turning(k', if k.preempt > 1 then ring else Rotated(ring), rest, n - 1) && k'.preempt == (if k.preempt > 1 then k.preempt - 1 else QUANTUM)
  {
    hide Turning, Step;
    CountedTurns(k, ring, rest, n);
    SlicedTurns(Counted(k), ring, rest, n - 1);
  }

  // ---- turns by the clock

  function Ticks(n: nat): (es: seq<Event>)
    ensures |es| == n && forall i :: 0 <= i < n ==> es[i] == Tick
  {
    seq(n, i => Tick)
  }

  /** Whose turn it is after t ticks, when the current process still has p ticks: the number of times
      that the processor has passed on. */
  function Turn(p: int, t: nat): (j: nat)
    requires p > 0
  {
    if t < p then 0 else 1 + (t - p) / QUANTUM
  }

  /** Turn 0 lasts p ticks, every other turn a quantum. */
  lemma TurnIs(p: int, t: nat, j: nat)
    requires p > 0
    ensures Turn(p, t) == j <==> if j == 0 then t < p else p + (j - 1) * QUANTUM <= t < p + j * QUANTUM
  {
  }

  /** Where j steps lead in a ring of n. */
  function Around(n: nat, j: nat): (r: nat)
    requires n > 0
    ensures r < n && (j < n ==> r == j)
  {
    if j < n then j else Around(n, j - n)
  }

  /** One step on, and once round. */
  lemma {:induction false} AroundOn(n: nat, j: nat)
    requires n > 0
    ensures Around(n, j + 1) == (if Around(n, j) + 1 < n then Around(n, j) + 1 else 0) && Around(n, j + n) == Around(n, j)
  {
    if j >= n {
      AroundOn(n, j - n);
    }
  }

  /** A turn of the ring on, and the rest of the turns. */
  lemma RotatedAt(ring: seq<int>, j: nat)
    requires ring != []
    ensures Rotated(ring)[Around(|ring|, j)] == ring[Around(|ring|, j + 1)]
  {
    AroundOn(|ring|, j);
  }

  lemma TurnOn(p: int, t: nat, j: nat)
    requires 0 < p <= QUANTUM
    ensures Turn(p, t + j * QUANTUM) == Turn(p, t) + j
  {
  }

  /** Round robin by the clock. From any state with equals ready, ticks that wake nobody pass the
      processor round the ring: the current process has what is left of its slice, and then each
      process a quantum in turn. */
  lemma {:induction false} TimeSlices(k: Kernel, ring: seq<int>, rest: seq<int>, t: nat)
    requires Turning(k, ring, rest, t)
    ensures ring != [] && k.preempt > 0 && Legal(k, Ticks(t)) && Run(k, Ticks(t)).curr == ring[Around(|ring|, Turn(k.preempt, t))]
    decreases t
  {
    hide Inv, Ring, NothingLeft, AllSleepOn, Step;
    RingFirst(k, ring, rest);
    if t > 0 {
      TickTurns(k, ring, rest, t);
      var k', ring' := Step(k, Tick).0, if k.preempt > 1 then ring else Rotated(ring);
      TimeSlices(k', ring', rest, t - 1);
      assert Ticks(t)[1..] == Ticks(t - 1);
      if k.preempt <= 1 {
        RotatedAt(ring, Turn(QUANTUM, t - 1));
      }
    }
  }

  lemma Shorter(k: Kernel, ring: seq<int>, rest: seq<int>, n: nat, t: nat)
    requires Turning(k, ring, rest, n) && t <= n
    ensures Turning(k, ring, rest, t)
  {
    hide Inv, Ring, NothingLeft;
    RingFirst(k, ring, rest);
  }

  lemma RingFirst(k: Kernel, ring: seq<int>, rest: seq<int>)
    requires Inv(k) && Ring(k, ring, rest)
    ensures ring != [] && k.curr == ring[0] && k.preempt > 0 && Sized(k)
  {
  }

  lemma TurningFirst(k: Kernel, ring: seq<int>, rest: seq<int>, n: nat)
    requires Turning(k, ring, rest, n)
    ensures ring != [] && k.preempt > 0
  {
    RingFirst(k, ring, rest);
  }

  /** The order repeats after a quantum for each. */
  lemma SlicesRepeat(k: Kernel, ring: seq<int>, rest: seq<int>, t: nat)
    requires ring != [] && Turning(k, ring, rest, t + |ring| * QUANTUM) && k.preempt <= QUANTUM
    ensures Legal(k, Ticks(t)) && Legal(k, Ticks(t + |ring| * QUANTUM)) && Run(k, Ticks(t + |ring| * QUANTUM)).curr == Run(k, Ticks(t)).curr
  {
    hide Turning, Run, Legal, Turn;
    TurningFirst(k, ring, rest, t + |ring| * QUANTUM);
    Shorter(k, ring, rest, t + |ring| * QUANTUM, t);
    TimeSlices(k, ring, rest, t + |ring| * QUANTUM);
    TimeSlices(k, ring, rest, t);
    TurnOn(k.preempt, t, |ring|);
    AroundOn(|ring|, Turn(k.preempt, t));
  }

  /** The processor is taken at the end of the slice and not before. */
  lemma PreemptedOnTime(k: Kernel, ring: seq<int>, rest: seq<int>)
    requires Inv(k) && |ring| > 1 && Turning(k, ring, rest, k.preempt)
    ensures k.preempt > 0 && forall t :: 0 <= t < k.preempt ==> Legal(k, Ticks(t)) && Run(k, Ticks(t)).curr == k.curr
    ensures Legal(k, Ticks(k.preempt)) && Run(k, Ticks(k.preempt)).curr == ring[1] != k.curr
  {
    hide Inv, NothingLeft, Ring, AllSleepOn, Run, Legal;
    RingFirst(k, ring, rest);
    forall t | 0 <= t < k.preempt
      ensures Legal(k, Ticks(t)) && Run(k, Ticks(t)).curr == k.curr
    {
      Shorter(k, ring, rest, k.preempt, t);
      TimeSlices(k, ring, rest, t);
    }
    TimeSlices(k, ring, rest, k.preempt);
    RingDiffers(k, ring, rest);
  }

  lemma RingDiffers(k: Kernel, ring: seq<int>, rest: seq<int>)
    requires Inv(k) && Ring(k, ring, rest) && |ring| > 1
    ensures ring[1] != k.curr
  {
    assert BaseSpelledOut(k);
    Members(k);
    assert k.q[ReadyQ(k)][0] == ring[1];
  }

  // ---- what a wake-up leaves over

  /** A tick that wakes a process which takes the processor leaves the interrupted one the rest of the
      handler. When that runs again, the rest takes one tick off its new slice, as if the clock had
      ticked once more. */
  lemma LeftOverSlice(k: Kernel, ring: seq<int>, rest: seq<int>, t: nat)
    requires Inv(k) && Ring(k, ring, rest) && k.pend[k.curr] == InTick && NothingLeft(k.(pend := k.pend[k.curr := Nothing]), ring) && AllSleepOn(k, t)
    ensures ring != [] && k.preempt > 0 && Legal(k, [Finish] + Ticks(t)) && Run(k, [Finish] + Ticks(t)).curr == ring[Around(|ring|, Turn(k.preempt, t + 1))]
  {
    hide Inv, Ring, AllSleepOn, NothingLeft, Turn;
    FinishTurns(k, ring, rest, t);
    var ring' := if k.preempt > 1 then ring else Rotated(ring);
    TimeSlices(Step(k, Finish).0, ring', rest, t);
    var es := [Finish] + Ticks(t);
    assert es[0] == Finish && es[1..] == Ticks(t);
    if k.preempt <= 1 {
      RotatedAt(ring, Turn(QUANTUM, t));
    }
    TurnBefore(k.preempt, t);
  }

  lemma TurnBefore(p: int, t: nat)
    requires p > 0
    ensures Turn(p, t + 1) == if p > 1 then Turn(p - 1, t) else Turn(QUANTUM, t) + 1
  {
  }

  lemma FinishTurns(k: Kernel, ring: seq<int>, rest: seq<int>, t: nat)
    requires Inv(k) && Ring(k, ring, rest) && k.pend[k.curr] == InTick && NothingLeft(k.(pend := k.pend[k.curr := Nothing]), ring) && AllSleepOn(k, t)
    ensures ring != [] && k.preempt > 0 && Sized(k) && Enabled(k, Finish)
    ensures var k' := Step(k, Finish).0;
      Turning(k', if k.preempt > 1 then ring else Rotated(ring), rest, t) && k'.preempt == (if k.preempt > 1 then k.preempt - 1 else QUANTUM)
  {
    hide Turning, Step, Sliced, Ring, NothingLeft, BaseCore, Top;
    FinishSame(k, ring, rest, t);
    SlicedTurns(k.(pend := k.pend[k.curr := Nothing]), ring, rest, t);
  }

  lemma RotatedLeft(k: Kernel, ring: seq<int>)
    requires ring != [] && NothingLeft(k, ring)
    ensures NothingLeft(k, Rotated(ring))
  {
    forall a | 0 <= a < |ring|
      ensures 0 <= Rotated(ring)[a] < |k.pend| && k.pend[Rotated(ring)[a]] == Nothing
    {
      assert Rotated(ring)[a] == ring[if a + 1 < |ring| then a + 1 else 0];
    }
  }

  lemma FinishSame(k: Kernel, ring: seq<int>, rest: seq<int>, t: nat)
    requires Inv(k) && Ring(k, ring, rest) && k.pend[k.curr] == InTick && NothingLeft(k.(pend := k.pend[k.curr := Nothing]), ring) && AllSleepOn(k, t)
    ensures var k1 := k.(pend := k.pend[k.curr := Nothing]); Turning(k1, ring, rest, t) && Sized(k1) && Enabled(k, Finish) && Step(k, Finish).0 == Sliced(k1)
    ensures ring != [] && k.preempt > 0
  {
    hide Sliced, Resched;
    Processes.FinishBase(k);
  }

  // ---- any calls

  /** After a switch the slice is a whole quantum, and else what it was. */
  ghost predicate SliceKept(k: Kernel, k': Kernel) { k'.preempt == if k'.curr == k.curr then k.preempt else QUANTUM }

  lemma ReschedSlice(k: Kernel)
    requires Base(k) && k.procs[k.curr].state != PrReady
    ensures SliceKept(k, Resched(k)) && (Resched(k).curr == k.curr ==> Resched(k) == k)
    ensures k.procs[k.curr].state == PrCurr && k.procs[k.curr].prio <= FirstKey(k) ==> Resched(k).curr != k.curr
  {
    hide InsertAt;
    assert BaseSpelledOut(k);
    Members(k);
    assert PrioOk(k, k.curr) && PrioOk(k, NULLPROC) && OnlyHere(k, NULLPROC) && OnlyHere(k, k.curr);
    var l := k.q[ReadyQ(k)];
    if k.procs[k.curr].state == PrCurr && k.procs[k.curr].prio <= FirstKey(k) {
      assert l != [] && Place(l, k.key, k.procs[k.curr].prio) > 0;
      InsertFirst(l, Place(l, k.key, k.procs[k.curr].prio), k.curr);
    }
  }

  lemma InsertFirst(l: seq<int>, j: nat, pid: int)
    requires 0 < j <= |l|
    ensures InsertAt(l, j, pid) != [] && InsertAt(l, j, pid)[0] == l[0]
  {
  }

  /** Making somebody ready is not switching. */
  lemma ReadySlice(k: Kernel, pid: int)
    requires Sized(k) && 0 <= pid < |k.procs|
    ensures Sized(MadeReady(k, pid)) && MadeReady(k, pid).preempt == k.preempt && MadeReady(k, pid).curr == k.curr && Unslept(k, pid).preempt == k.preempt
    ensures |MadeReady(k, pid).procs| == |k.procs| && (pid != k.curr ==> MadeReady(k, pid).procs[k.curr] == k.procs[k.curr])
    ensures Sized(Unslept(k, pid)) && Unslept(k, pid).curr == k.curr && Unslept(k, pid).procs == k.procs
  {
  }

  /** Nobody else's state, and not the slice. */
  ghost predicate StillRuns(k: Kernel, k': Kernel) {
    Sized(k) && Sized(k') && k'.preempt == k.preempt && k'.curr == k.curr && |k'.procs| == |k.procs| && k'.procs[k.curr] == k.procs[k.curr]
  }

  lemma {:induction false} SignalledSlice(k: Kernel, s: int, n: nat)
    requires Base(k) && 0 <= s < |k.sems| && k.sems[s].used && k.procs[k.curr].state == PrCurr
    ensures StillRuns(k, SignalledTimes(k, s, n))
  {
    hide MadeReady, BaseCore;
    if n > 0 {
      SignalledSlice(k, s, n - 1);
      SignalledTimesOk(k, s, n - 1);
      var k1 := SignalledTimes(k, s, n - 1);
      if k1.sems[s].count < 0 {
        Waiter(k1, s);
        ReadySlice(Count(k1, s, k1.sems[s].count + 1), k1.q[s][0]);
      }
    }
  }

  lemma {:induction false} AllReadySlice(k: Kernel, s: int, n: nat)
    requires Base(k) && 0 <= s < |k.sems| && n <= |k.q[s]| && k.procs[k.curr].state == PrCurr
    ensures StillRuns(k, AllReady(k, s, n))
  {
    hide MadeReady, BaseBut;
    if n > 0 {
      AllReadySlice(k, s, n - 1);
      AllReadyOk(k, s, n - 1);
      var k1 := AllReady(k, s, n - 1);
      FirstWaiter(k1, k.curr, s);
      ReadySlice(k1, k1.q[s][0]);
    }
  }

  lemma SemSlice(k: Kernel, e: Event)
    requires Inv(k) && Enabled(k, e) && (e.Wait? || e.Signal? || e.Signaln? || e.Semdelete? || e.Semreset? || e.Semcreate?)
    ensures SliceKept(k, Step(k, e).0)
  {
    hide Resched, MadeReady, Signalled, FindSem;
    match e
    case Wait(r) =>
      if !BadSem(k, r) && k.sems[r].count <= 0 {
        Processes.WaitBase(k, r);
        ReschedSlice(Count(k, r, k.sems[r].count - 1).(procs := k.procs[k.curr := k.procs[k.curr].(state := PrWait, sem := r)], q := k.q[r := k.q[r] + [k.curr]]));
      }
    case Signal(r) =>
      if !BadSem(k, r) {
        SignalledOk(k, r);
        SignalledSlice(k, r, 1);
        assert SignalledTimes(k, r, 1) == Signalled(SignalledTimes(k, r, 0), r) && SignalledTimes(k, r, 0) == k;
        ReschedSlice(Signalled(k, r));
      }
    case Signaln(r, count) =>
      if !BadSem(k, r) && count >= 0 {
        SignalledTimesOk(k, r, count);
        SignalledSlice(k, r, count);
        ReschedSlice(SignalledTimes(k, r, count));
      }
    case Semdelete(r) =>
      if !BadSem(k, r) {
        ClearSlice(k, r, Sem(false, if k.sems[r].count < 0 then 1 else k.sems[r].count + 1));
      }
    case Semreset(r, count) =>
      if count >= 0 && !BadSem(k, r) {
        Processes.ResetParts(k, r, count);
        ClearSlice(k, r, Sem(true, count));
      }
    case Semcreate(_) =>
  }

  lemma ClearSlice(k: Kernel, r: int, m: Sem)
    requires Inv(k) && 0 <= r < |k.sems| && k.sems[r].used && (m.used ==> m.count >= 0)
    ensures var k1 := AllReady(k, r, |k.q[r]|);
      var k2 := k1.(sems := k1.sems[r := m]);
      Sized(k2) && SliceKept(k, k2) && SliceKept(k, Resched(k2))
  {
    hide Resched;
    ClearBase(k, r, m);
    AllReadySlice(k, r, |k.q[r]|);
    var k1 := AllReady(k, r, |k.q[r]|);
    ReschedSlice(k1.(sems := k1.sems[r := m]));
  }

  lemma MailSlice(k: Kernel, e: Event)
    requires Inv(k) && Enabled(k, e) && (e.Send? || e.Receive? || e.Recvtime? || e.Recvclr?)
    ensures SliceKept(k, Step(k, e).0)
  {
    hide Resched, MadeReady, DeltaPlace, InsertAt, KeyAfter, KeyGiven;
    var c := k.curr;
    match e
    case Send(pid, msg) =>
      if !BadPid(k, pid) && !k.procs[pid].hasmsg {
        SendBase(k, pid, msg);
        var k1 := Delivered(k, pid, msg);
        ReadySlice(k1, pid);
        ReadySlice(Unslept(k1, pid), pid);
        if k.procs[pid].state == PrRecv {
          ReschedSlice(MadeReady(k1, pid));
        } else if k.procs[pid].state == PrRectim {
          ReschedSlice(MadeReady(Unslept(k1, pid), pid));
        }
      }
    case Receive =>
      if !k.procs[c].hasmsg {
        ReceiveBase(k);
        ReschedSlice(SetState(k.(pend := k.pend[c := InReceive]), c, PrRecv));
      }
    case Recvtime(maxwait) =>
      if maxwait >= 0 && !k.procs[c].hasmsg {
        RecvtimeBase(k, maxwait);
        ReschedSlice(Asleep(k.(pend := k.pend[c := InRecvtime]), c, maxwait, PrRectim));
      }
    case Recvclr =>
  }

  lemma ProcSlice(k: Kernel, e: Event)
    requires Inv(k) && Enabled(k, e) && (e.Suspend? || e.Resume? || e.Yield? || e.Sleepms? || e.Create? || e.Kill?)
    ensures SliceKept(k, Step(k, e).0)
  {
    hide Resched, MadeReady, Without, DeltaPlace, InsertAt, KeyAfter, KeyGiven;
    match e
    case Suspend(pid) =>
      if !BadPid(k, pid) && pid != NULLPROC && k.procs[pid].state in {PrCurr, PrReady} {
        SuspendBase(k, pid);
        ReschedSlice(SetState(OffQueue(k, pid), pid, PrSusp));
      }
    case Resume(pid) =>
      if !BadPid(k, pid) && k.procs[pid].state == PrSusp {
        ResumeBase(k, pid);
        ReadySlice(k, pid);
        ReschedSlice(MadeReady(k, pid));
      }
    case Yield => ReschedSlice(k);
    case Sleepms(delay) =>
      if delay == 0 {
        ReschedSlice(k);
      } else {
        SleepBase(k, Int32(delay));
        ReschedSlice(Asleep(k, k.curr, Int32(delay), PrSleep));
      }
    case Create(_, _) =>
    case Kill(pid) =>
      if !BadPid(k, pid) && pid != NULLPROC && k.procs[pid].state == PrCurr {
        KillCurrent(k, pid);
        Processes.KillBase(k);
        ReschedSlice(SetState(k, pid, PrFree));
      }
  }

  lemma KillCurrent(k: Kernel, pid: int)
    requires Inv(k) && 0 <= pid < |k.procs| && k.procs[pid].state == PrCurr
    ensures pid == k.curr && SetState(OffQueue(k, pid), pid, PrFree) == SetState(k, pid, PrFree)
  {
    assert BaseSpelledOut(k);
    assert PrioOk(k, pid);
  }

  /** A call that does not end in a switch leaves the slice as it is; after a switch it is a quantum. */
  lemma StepSlice(k: Kernel, e: Event)
    requires Inv(k) && Enabled(k, e) && !e.Tick? && !e.Finish?
    ensures SliceKept(k, Step(k, e).0)
  {
    hide WaitStep, SignalStep, SignalnStep, SemcreateStep, SemdeleteStep, SemresetStep, SendStep, ReceiveStep, RecvtimeStep, RecvclrStep, SuspendStep, ResumeStep, Resched, SleepStep, KillStep, CreateStep, TickStep, FinishStep, SliceKept;
    if e.Wait? || e.Signal? || e.Signaln? || e.Semdelete? || e.Semreset? || e.Semcreate? {
      SemSlice(k, e);
    } else if e.Send? || e.Receive? || e.Recvtime? || e.Recvclr? {
      MailSlice(k, e);
    } else {
      ProcSlice(k, e);
    }
  }

  // ---- preemption over any run

  /** Some ready process has the priority of the current one. */
  ghost predicate Rival(k: Kernel)
    requires Sized(k)
  {
    exists p :: 0 <= p < |k.procs| && k.procs[p].state == PrReady && k.procs[p].prio == k.procs[k.curr].prio
  }

  lemma RivalFirst(k: Kernel)
    requires Base(k) && Rival(k)
    ensures k.procs[k.curr].prio <= FirstKey(k)
  {
    assert BaseSpelledOut(k);
    Members(k);
    var p :| 0 <= p < |k.procs| && k.procs[p].state == PrReady && k.procs[p].prio == k.procs[k.curr].prio;
    assert OnlyHere(k, p);
    var b :| 0 <= b < |k.q[ReadyQ(k)]| && k.q[ReadyQ(k)][b] == p;
  }

  /** Whoever still runs after rescheduling has no rival. */
  ghost predicate Settled(k: Kernel, k': Kernel)
    requires Sized(k)
  {
    Sized(k') && (k'.curr == k.curr ==> !Rival(k'))
  }

  lemma ReschedSettles(k: Kernel, k1: Kernel)
    requires Sized(k) && Base(k1) && k1.procs[k1.curr].state != PrReady && k1.curr == k.curr
    ensures Settled(k, Resched(k1))
  {
    hide Resched;
    ReschedOk(k1);
    ReschedSlice(k1);
    if Rival(k1) && Resched(k1) == k1 {
      RivalFirst(k1);
    }
  }

  /** The call gives the processor away, or makes somebody ready. */
  predicate Readies(k: Kernel, e: Event)
    requires Sized(k)
  {
    match e
    case Yield => true
    case Sleepms(delay) => delay == 0
    case Signal(s) => !BadSem(k, s) && k.sems[s].count < 0
    case Signaln(s, count) => !BadSem(k, s) && k.sems[s].count < 0 && count > 0
    case Semdelete(s) => !BadSem(k, s) && k.q[s] != []
    case Semreset(s, count) => !BadSem(k, s) && k.q[s] != [] && count >= 0
    case Send(p, _) => !BadPid(k, p) && !k.procs[p].hasmsg && k.procs[p].state in {PrRecv, PrRectim}
    case Resume(p) => !BadPid(k, p) && k.procs[p].state == PrSusp
    case _ => false
  }

  /** Every such call reschedules: the caller goes on only if no ready process has its priority. */
  lemma Reschedules(k: Kernel, e: Event)
    requires Inv(k) && Enabled(k, e) && Readies(k, e)
    ensures Settled(k, Step(k, e).0)
  {
    hide Resched, MadeReady, Signalled, KeyGiven;
    match e
    case Yield => ReschedSettles(k, k);
    case Sleepms(_) => ReschedSettles(k, k);
    case Signal(s) =>
      SignalledOk(k, s);
      SignalledSlice(k, s, 1);
      assert SignalledTimes(k, s, 1) == Signalled(SignalledTimes(k, s, 0), s) && SignalledTimes(k, s, 0) == k;
      ReschedSettles(k, Signalled(k, s));
    case Signaln(s, count) =>
      SignalledTimesOk(k, s, count);
      SignalledSlice(k, s, count);
      ReschedSettles(k, SignalledTimes(k, s, count));
    case Semdelete(s) => ClearSettles(k, s, Sem(false, if k.sems[s].count < 0 then 1 else k.sems[s].count + 1));
    case Semreset(s, count) =>
      Processes.ResetParts(k, s, count);
      ClearSettles(k, s, Sem(true, count));
    case Send(p, msg) =>
      SendBase(k, p, msg);
      var k1 := Delivered(k, p, msg);
      ReadySlice(k1, p);
      ReadySlice(Unslept(k1, p), p);
      ReschedSettles(k, if k.procs[p].state == PrRecv then MadeReady(k1, p) else MadeReady(Unslept(k1, p), p));
    case Resume(p) =>
      ResumeBase(k, p);
      ReadySlice(k, p);
      ReschedSettles(k, MadeReady(k, p));
  }

  lemma ClearSettles(k: Kernel, r: int, m: Sem)
    requires Inv(k) && 0 <= r < |k.sems| && k.sems[r].used && (m.used ==> m.count >= 0)
    ensures var k1 := AllReady(k, r, |k.q[r]|); Settled(k, Resched(k1.(sems := k1.sems[r := m])))
  {
    hide Resched;
    ClearBase(k, r, m);
    AllReadySlice(k, r, |k.q[r]|);
    var k1 := AllReady(k, r, |k.q[r]|);
    ReschedSettles(k, k1.(sems := k1.sems[r := m]));
  }

  /** So does a tick that wakes anybody. */
  lemma WakingReschedules(k: Kernel)
    requires Inv(k) && k.pend[k.curr] == Nothing && |Ticked(k).q[SleepQ(k)]| < |k.q[SleepQ(k)]|
    ensures Settled(k, TickStep(k).0)
  {
    hide Resched, Ticked, Sliced, BaseCore;
    var k1 := Ticked(k);
    TickedOk(k);
    ReschedSettles(k, k1);
    ReschedOk(k1);
    if Resched(k1).curr == k.curr {
      SlicedSettles(Resched(k1));
    } else {
      TickOk(k);
    }
  }

  lemma SlicedSettles(k: Kernel)
    requires Inv(k) && !Rival(k)
    ensures Settled(k, Sliced(k))
  {
    hide Resched;
    SlicedOk(k);
    var k1 := k.(preempt := QUANTUM);
    PreemptBase(k, QUANTUM);
    ReschedSettles(k, k1);
    RivalStays(k, k1);
    RivalStays(k, k.(preempt := if k.preempt > 1 then k.preempt - 1 else QUANTUM));
  }

  /** The processor goes round the equals when the current process gives it up. */
  lemma YieldIs(k: Kernel, e: Event, ring: seq<int>, rest: seq<int>)
    requires Inv(k) && Enabled(k, e) && (e == Yield || e == Sleepms(0)) && Ring(k, ring, rest)
    ensures var (k', r) := Step(k, e); r == Ok && Inv(k') && Ring(k', Rotated(ring), rest)
  {
    YieldTurns(k, ring, rest);
  }

  /** What a tick, or what is left over of one, does to the slice. */
  ghost predicate SliceTicked(k: Kernel, k': Kernel)
    requires Sized(k)
  {
    if k'.curr != k.curr then k'.preempt == QUANTUM
    else k'.preempt == (if k.preempt > 1 then k.preempt - 1 else QUANTUM) && (Rival(k) ==> k.preempt > 1)
  }

  lemma SlicedTicks(k: Kernel)
    requires Inv(k)
    ensures SliceTicked(k, Sliced(k))
  {
    hide Resched;
    var k1 := k.(preempt := QUANTUM);
    PreemptBase(k, QUANTUM);
    ReschedSlice(k1);
    if Rival(k) {
      var p :| 0 <= p < |k.procs| && k.procs[p].state == PrReady && k.procs[p].prio == k.procs[k.curr].prio;
      assert k1.procs[p].state == PrReady;
      RivalFirst(k1);
    }
  }

  lemma {:induction false} WokenSlice(k: Kernel, n: nat)
    requires Base(k) && n <= |k.q[SleepQ(k)]| && k.procs[k.curr].state == PrCurr
    ensures StillRuns(k, WokenTimes(k, n)) && (Rival(k) ==> Rival(WokenTimes(k, n)))
  {
    hide Woken, BaseCore, Rival;
    if n > 0 {
      WokenSlice(k, n - 1);
      WokenTimesOk(k, n - 1);
      OneWoken(WokenTimes(k, n - 1));
    } else {
      assert WokenTimes(k, 0) == k;
    }
  }

  lemma OneWoken(k: Kernel)
    requires Base(k) && k.procs[k.curr].state == PrCurr
    ensures StillRuns(k, Woken(k)) && (Rival(k) ==> Rival(Woken(k)))
  {
    hide MadeReady;
    assert BaseSpelledOut(k);
    Members(k);
    if k.q[SleepQ(k)] != [] {
      var pid := k.q[SleepQ(k)][0];
      ReadySlice(k, pid);
      ReadyOthers(k, pid);
      if Rival(k) {
        var p :| 0 <= p < |k.procs| && k.procs[p].state == PrReady && k.procs[p].prio == k.procs[k.curr].prio;
        assert Woken(k).procs[p] == k.procs[p];
      }
    }
  }

  lemma ReadyOthers(k: Kernel, pid: int)
    requires Sized(k) && 0 <= pid < |k.procs|
    ensures |MadeReady(k, pid).procs| == |k.procs| && forall p :: 0 <= p < |k.procs| && p != pid ==> MadeReady(k, pid).procs[p] == k.procs[p]
  {
  }

  lemma TickTicks(k: Kernel)
    requires Inv(k) && k.pend[k.curr] == Nothing
    ensures SliceTicked(k, TickStep(k).0)
  {
    hide Resched, WokenTimes, Sliced, Due, MadeReady, BaseCore;
    var k2, l, k3 := Counted(k), k.q[SleepQ(k)], Processes.AfterCount(k);
    Processes.CountParts(k);
    SlicedTicks(k3);
    RivalStays(k, k2);
    if l != [] && k2.key[l[0]] <= 0 {
      var k1 := WokenTimes(k2, Due(l, k2.key));
      WokenSlice(k2, Due(l, k2.key));
      WokenTimesOk(k2, Due(l, k2.key));
      ReschedSlice(k1);
      if Rival(k) {
        RivalFirst(k1);
      }
    }
    assert TickStep(k).0.preempt == (if k3.curr == k.curr then Sliced(k3) else k3).preempt;
  }

  lemma RivalStays(k: Kernel, k': Kernel)
    requires Sized(k) && Sized(k') && k'.procs == k.procs && k'.curr == k.curr
    ensures Rival(k') <==> Rival(k)
  {
  }

  /** The clock, or what it left over. */
  predicate Slices(k: Kernel, e: Event)
    requires Sized(k)
  {
    e.Tick? || (e.Finish? && k.pend[k.curr] == InTick)
  }

  lemma AnySlice(k: Kernel, e: Event)
    requires Inv(k) && Enabled(k, e)
    ensures if Slices(k, e) then SliceTicked(k, Step(k, e).0) else SliceKept(k, Step(k, e).0)
  {
    hide Sliced, TickStep, BaseCore, Top;
    if e.Tick? {
      TickTicks(k);
    } else if e.Finish? {
      if k.pend[k.curr] == InTick {
        var k1 := k.(pend := k.pend[k.curr := Nothing]);
        Processes.FinishBase(k);
        SlicedTicks(k1);
        RivalStays(k, k1);
      }
    } else {
      StepSlice(k, e);
    }
  }

  /** Every state of the run has the same current process, and all but the last have a rival. */
  ghost predicate KeepsOn(k: Kernel, es: seq<Event>)
    requires Legal(k, es)
    decreases |es|
  {
    es == [] || (Rival(k) && Step(k, es[0]).0.curr == k.curr && KeepsOn(Step(k, es[0]).0, es[1..]))
  }

  /** How often the clock counts against the current process in a run. */
  function ClockTicks(k: Kernel, es: seq<Event>): nat
    requires Legal(k, es)
    decreases |es|
  {
    if es == [] then 0 else (if Slices(k, es[0]) then 1 else 0) + ClockTicks(Step(k, es[0]).0, es[1..])
  }

  /** Preemption, whatever calls are made: over every run in which a process keeps the processor while
      another of its priority is ready, each tick comes off its slice, so that fewer ticks pass than
      the slice has. */
  lemma {:induction false} NobodyKeepsOn(k: Kernel, es: seq<Event>)
    requires Inv(k) && Legal(k, es) && KeepsOn(k, es)
    ensures Inv(Run(k, es)) && Run(k, es).preempt == k.preempt - ClockTicks(k, es) && ClockTicks(k, es) < k.preempt
    decreases |es|
  {
    hide Enabled, Step, Rival;
    if es != [] {
      StepKeeps(k, es[0]);
      AnySlice(k, es[0]);
      NobodyKeepsOn(Step(k, es[0]).0, es[1..]);
    }
  }

  /** No slice is longer than a quantum. */
  lemma {:induction false} SliceBound(k: Kernel, es: seq<Event>)
    requires Inv(k) && Legal(k, es) && k.preempt <= QUANTUM
    ensures Run(k, es).preempt <= QUANTUM
    decreases |es|
  {
    hide Enabled, Step, Rival, Inv;
    if es != [] {
      StepKeeps(k, es[0]);
      AnySlice(k, es[0]);
      SliceBound(Step(k, es[0]).0, es[1..]);
    }
  }

  /** From the start of the system on, a process with a rival is preempted within a quantum. */
  lemma WithinQuantum(nproc: nat, nsem: nat, before: seq<Event>, es: seq<Event>)
    requires nproc > 0 && nsem > 0 && Legal(Processes.Boot(nproc, nsem), before)
    requires Legal(Run(Processes.Boot(nproc, nsem), before), es) && KeepsOn(Run(Processes.Boot(nproc, nsem), before), es)
    ensures ClockTicks(Run(Processes.Boot(nproc, nsem), before), es) < QUANTUM
  {
    hide Legal, Run, KeepsOn, ClockTicks;
    Processes.BootInv(nproc, nsem);
    RunInv(Processes.Boot(nproc, nsem), before);
    SliceBound(Processes.Boot(nproc, nsem), before);
    NobodyKeepsOn(Run(Processes.Boot(nproc, nsem), before), es);
  }
}
