/** Main results about processes: whole runs, wake-up times, mailboxes, and turns. */
module ProcessRuns {
  import opened DistinctLists
  import opened ProcessSpec
  import opened ProcessSteps
  import opened ProcessCalls
  import opened ProcessKeeps
  import opened ProcessClock
  import Processes

  // ---- wake-up times over every step

  /** A call that waits for a time waits for at least one tick, and less than 2^31. */
  predicate GoodDelay(e: Event) {
    && (e.Sleepms? ==> e.delay < 0x8000_0000)
    && (e.Recvtime? ==> e.maxwait != 0)
  }

  lemma SignalledTime(k: Kernel, s: int)
    requires Base(k) && OnTime(k) && 0 <= s < |k.sems| && k.sems[s].used
    ensures OnTime(Signalled(k, s)) && (k.procs[k.curr].state == PrCurr ==> Signalled(k, s).procs[k.curr].state == PrCurr)
  {
    hide OnTime, Place, InsertAt, Without, Ordered, MailOk;
    assert BaseSpelledOut(k);
    var k1 := Count(k, s, k.sems[s].count + 1);
    OnTimeFrame(k, k1);
    if k.sems[s].count < 0 {
      Waiter(k, s);
      var pid := k.q[s][0];
      CountBut(k, pid, s, k.sems[s].count + 1) by {
        BaseTo(k, pid, s);
      }
      MadeReadyTime(k1, pid);
    }
  }

  /** Who is first at a semaphore waits. */
  lemma Waiter(k: Kernel, s: int)
    requires Base(k) && 0 <= s < |k.sems| && k.sems[s].used && k.sems[s].count < 0
    ensures k.q[s] != [] && 0 <= k.q[s][0] < |k.procs| && k.procs[k.q[s][0]].state == PrWait
  {
    assert BaseSpelledOut(k);
    assert QueueOk(k, s) && SemOk(k, s);
  }

  lemma {:induction false} SignalledTimesTime(k: Kernel, s: int, n: nat)
    requires Base(k) && OnTime(k) && 0 <= s < |k.sems| && k.sems[s].used && k.procs[k.curr].state == PrCurr
    ensures var k' := SignalledTimes(k, s, n); OnTime(k') && k'.procs[k.curr].state == PrCurr
  {
    hide OnTime, Place, InsertAt, Without;
    if n > 0 {
      SignalledTimesTime(k, s, n - 1);
      SignalledTimesOk(k, s, n - 1);
      var k1 := SignalledTimes(k, s, n - 1);
      SignalledTime(k1, s);
      assert BaseSpelledOut(k1);
      assert QueueOk(k1, s);
    }
  }

  lemma {:induction false} AllReadyTime(k: Kernel, s: int, n: nat)
    requires Base(k) && OnTime(k) && 0 <= s < |k.sems| && n <= |k.q[s]| && k.procs[k.curr].state == PrCurr
    ensures var k' := AllReady(k, s, n); OnTime(k') && k'.procs[k.curr].state == PrCurr
  {
    hide MailOk, MadeReady, OnTime, BaseCore, BaseBut;
    if n > 0 {
      AllReadyTime(k, s, n - 1);
      AllReadyOk(k, s, n - 1);
      NextTime(AllReady(k, s, n - 1), k.curr, s);
    }
  }

  /** The first waiter of a queue becomes ready. */
  lemma NextTime(k: Kernel, c: int, s: int)
    requires BaseBut(k, c, s) && OnTime(k) && 0 <= s < |k.sems| && k.q[s] != [] && 0 <= c < |k.procs| && k.procs[c].state == PrCurr
    ensures var pid := k.q[s][0]; 0 <= pid < |k.procs| && OnTime(MadeReady(k, pid)) && MadeReady(k, pid).procs[c].state == PrCurr
  {
    hide OnTime, Ordered, MailOk, PrioOk, SemOk, Place, InsertAt, Without;
    FirstWaiter(k, c, s);
    MadeReadyTime(k, k.q[s][0]);
  }

  /** Semdelete and semreset. */
  lemma ClearTime(k: Kernel, s: int, m: Sem)
    requires Inv(k) && OnTime(k) && 0 <= s < |k.sems| && (m.used ==> m.count >= 0)
    ensures var k1 := AllReady(k, s, |k.q[s]|);
      var k2 := k1.(sems := k1.sems[s := m]);
      Sized(if k.q[s] != [] then Resched(k2) else k2) && OnTime(if k.q[s] != [] then Resched(k2) else k2)
  {
    hide Resched, MadeReady, OnTime, BaseCore, Top;
    var k1 := AllReady(k, s, |k.q[s]|);
    ClearBase(k, s, m);
    AllReadyTime(k, s, |k.q[s]|);
    var k2 := k1.(sems := k1.sems[s := m]);
    OnTimeFrame(k1, k2);
    if k.q[s] != [] {
      ReschedTime(k2);
    }
  }

  lemma WaitTime(k: Kernel, s: int)
    requires Inv(k) && Enabled(k, Wait(s)) && OnTime(k)
    ensures Sized(WaitStep(k, s).0) && OnTime(WaitStep(k, s).0)
  {
    hide Place, InsertAt, Without;
    StepKeeps(k, Wait(s));
    if !BadSem(k, s) {
      assert BaseSpelledOut(k);
      OnTimeFrame(k, WaitStep(k, s).0);
    }
  }

  lemma SemTime(k: Kernel, e: Event)
    requires Inv(k) && Enabled(k, e) && OnTime(k) && (e.Wait? || e.Signal? || e.Signaln? || e.Semcreate? || e.Semdelete? || e.Semreset?)
    ensures Sized(Step(k, e).0) && OnTime(Step(k, e).0)
  {
    hide Resched, Place, WaitStep;
    StepKeeps(k, e);
    assert BaseSpelledOut(k);
    match e
    case Wait(s) => WaitTime(k, s);
    case Signal(s) =>
      if !BadSem(k, s) {
        SignalledOk(k, s);
        SignalledTime(k, s);
        ReschedTime(Signalled(k, s));
      }
    case Signaln(s, count) =>
      if !BadSem(k, s) && count >= 0 {
        SignalledTimesOk(k, s, count);
        SignalledTimesTime(k, s, count);
        ReschedTime(SignalledTimes(k, s, count));
      }
    case Semcreate(count) => OnTimeFrame(k, Step(k, e).0);
    case Semdelete(s) =>
      if !BadSem(k, s) {
        ClearTime(k, s, Sem(false, if k.sems[s].count < 0 then 1 else k.sems[s].count + 1));
      }
    case Semreset(s, count) =>
      if count >= 0 && !BadSem(k, s) {
        AllReadyOk(k, s, |k.q[s]|);
        ClearTime(k, s, Sem(true, count));
      }
  }

  lemma SendTime(k: Kernel, pid: int, msg: int)
    requires Inv(k) && OnTime(k)
    ensures Sized(SendStep(k, pid, msg).0) && OnTime(SendStep(k, pid, msg).0)
  {
    hide QueueOk, Ordered, Without, InsertAt, Place, Resched;
    SendOk(k, pid, msg);
    if !BadPid(k, pid) && !k.procs[pid].hasmsg {
      var k1, state := Delivered(k, pid, msg), k.procs[pid].state;
      DeliveredOk(k, pid, msg);
      OnTimeFrame(k, k1);
      assert BaseSpelledOut(k);
      assert MailOk(k, pid);
      if state == PrRecv {
        MadeReadyTime(k1, pid);
        MadeReadyOk(k1, pid, -1);
        BaseFrom(MadeReady(k1, pid), pid, -1);
        ReschedTime(MadeReady(k1, pid));
      } else if state == PrRectim {
        WokenEarly(k1, pid);
        UnsleptOk(k1, pid, -1);
        var k2 := MadeReady(Unslept(k1, pid), pid);
        MadeReadyOk(Unslept(k1, pid), pid, -1);
        BaseFrom(k2, pid, -1);
        ReschedTime(k2);
      }
    }
  }

  lemma KillTime(k: Kernel, pid: int)
    requires Inv(k) && OnTime(k)
    ensures Sized(KillStep(k, pid).0) && OnTime(KillStep(k, pid).0)
  {
    KillOk(k, pid);
    if !BadPid(k, pid) && pid != NULLPROC {
      if k.procs[pid].state in {PrSleep, PrRectim} {
        KillSleeper(k, pid);
      } else {
        KillOther(k, pid);
      }
    }
  }

  lemma KillOther(k: Kernel, pid: int)
    requires Inv(k) && OnTime(k) && pid != NULLPROC && 0 <= pid < |k.procs| && k.procs[pid].state !in {PrSleep, PrRectim, PrFree}
    requires Inv(KillStep(k, pid).0)
    ensures OnTime(KillStep(k, pid).0)
  {
    hide Place, InsertAt, MadeReady, Distinct, Without, OnTime, Ordered, SemOk, MailOk, QueueOk, Top;
    var k1 := SetState(OffQueue(k, pid), pid, PrFree);
    assert OnlyHere(k, pid) && PrioOk(k, pid) by {
      assert BaseSpelledOut(k);
    }
    OnTimeFrame(k, k1);
    if k.procs[pid].state == PrCurr {
      OnTimeFrame(k1, KillStep(k, pid).0);
    } else {
      OnTimeFrame(k, KillStep(k, pid).0);
    }
  }

  lemma KillSleeper(k: Kernel, pid: int)
    requires Inv(k) && OnTime(k) && pid != NULLPROC && 0 <= pid < |k.procs| && k.procs[pid].state in {PrSleep, PrRectim}
    ensures Sized(KillStep(k, pid).0) && OnTime(KillStep(k, pid).0)
  {
    UnsleptTime(k, pid) by {
      assert BaseSpelledOut(k);
    }
    var k' := KillStep(k, pid).0;
    assert k'.q[SleepQ(k')] == Without(k.q[SleepQ(k)], pid);
    assert k'.key == Unslept(k, pid).key;
  }

  lemma SleepTime(k: Kernel, delay: int)
    requires Inv(k) && OnTime(k) && k.pend[k.curr] == Nothing && (delay != 0 ==> k.curr != NULLPROC) && 0 <= delay < 0x8000_0000
    ensures Sized(SleepStep(k, delay).0) && OnTime(SleepStep(k, delay).0)
  {
    SleepOk(k, delay);
    if delay == 0 {
      ReschedTime(k);
    } else {
      AsleepTime(k, k.curr, delay, PrSleep) by {
        assert BaseSpelledOut(k);
      }
      OnTimeFrame(Asleep(k, k.curr, delay, PrSleep), SleepStep(k, delay).0);
    }
  }

  lemma RecvtimeTime(k: Kernel, maxwait: int)
    requires Inv(k) && OnTime(k) && k.pend[k.curr] == Nothing && k.curr != NULLPROC && maxwait != 0 && InInt32(maxwait)
    ensures Sized(RecvtimeStep(k, maxwait).0) && OnTime(RecvtimeStep(k, maxwait).0)
  {
    RecvtimeOk(k, maxwait);
    if maxwait > 0 {
      if k.procs[k.curr].hasmsg {
        OnTimeFrame(k, Took(k).0);
      } else {
        var k1 := k.(pend := k.pend[k.curr := InRecvtime]);
        OnTimeFrame(k, k1);
        AsleepTime(k1, k.curr, maxwait, PrRectim) by {
          assert BaseSpelledOut(k);
          Requeued(k, k1);
        }
        OnTimeFrame(Asleep(k1, k.curr, maxwait, PrRectim), RecvtimeStep(k, maxwait).0);
      }
    }
  }

  lemma Requeued(k: Kernel, k1: Kernel)
    requires Queued(k) && Sized(k1) && k1.procs == k.procs && k1.q == k.q && |k1.sems| == |k.sems|
    ensures Queued(k1)
  {
    forall i | 0 <= i < |k1.q|
      ensures QueueOk(k1, i)
    {
      assert QueueOk(k, i);
    }
    forall p | 0 <= p < |k1.procs|
      ensures OnlyHere(k1, p)
    {
      assert OnlyHere(k, p);
    }
  }

  lemma TickTime(k: Kernel)
    requires Inv(k) && OnTime(k) && k.pend[k.curr] == Nothing
    ensures Sized(TickStep(k).0) && OnTime(TickStep(k).0)
  {
    hide Resched, MadeReady, Ticked, Switch;
    TickOk(k);
    TickOnTime(k);
    TickedOk(k);
    var k1 := Ticked(k);
    ReschedTime(k1);
    var k2 := if |k1.q[SleepQ(k)]| < |k.q[SleepQ(k)]| then Resched(k1) else k1;
    if k2.curr == k.curr {
      if |k1.q[SleepQ(k)]| < |k.q[SleepQ(k)]| {
        ReschedOk(k1);
      } else {
        assert BaseSpelledOut(k1);
        InvSame(k, k1);
      }
      SlicedTime(k2);
    } else {
      OnTimeFrame(k2, TickStep(k).0);
    }
  }

  lemma SlicedTime(k: Kernel)
    requires Inv(k) && OnTime(k)
    ensures Sized(Sliced(k)) && OnTime(Sliced(k))
  {
    var k1 := k.(preempt := QUANTUM);
    if k.preempt - 1 <= 0 {
      OnTimeFrame(k, k1);
      PreemptBase(k, QUANTUM);
      ReschedTime(k1);
    } else {
      OnTimeFrame(k, k.(preempt := k.preempt - 1));
    }
  }

  /** As long as delays are good, everybody wakes on time: no step moves anybody's wake-up tick. */
  lemma StepOnTime(k: Kernel, e: Event)
    requires Inv(k) && Enabled(k, e) && OnTime(k) && GoodDelay(e)
    ensures Inv(Step(k, e).0) && OnTime(Step(k, e).0)
  {
    hide SendStep, RecvtimeStep, SuspendStep, ResumeStep, SleepStep, KillStep, TickStep, FinishStep, WaitStep, SignalStep, SignalnStep, SemdeleteStep, SemresetStep, Place, InsertAt, MadeReady;
    StepKeeps(k, e);
    assert BaseSpelledOut(k);
    match e
    case Wait(_) => SemTime(k, e);
    case Signal(_) => SemTime(k, e);
    case Signaln(_, _) => SemTime(k, e);
    case Semcreate(_) => SemTime(k, e);
    case Semdelete(_) => SemTime(k, e);
    case Semreset(_, _) => SemTime(k, e);
    case Send(pid, msg) => SendTime(k, pid, msg);
    case Receive => OnTimeFrame(k, Step(k, e).0);
    case Recvtime(maxwait) => RecvtimeTime(k, maxwait);
    case Recvclr => OnTimeFrame(k, Step(k, e).0);
    case Suspend(pid) => SuspendTime(k, pid);
    case Resume(pid) => ResumeTime(k, pid);
    case Yield => ReschedTime(k);
    case Sleepms(delay) => SleepTime(k, delay);
    case Kill(pid) => KillTime(k, pid);
    case Create(_, _) => OnTimeFrame(k, Step(k, e).0);
    case Tick => TickTime(k);
    case Finish => FinishTime(k);
  }

  lemma SuspendTime(k: Kernel, pid: int)
    requires Inv(k) && OnTime(k)
    ensures Sized(SuspendStep(k, pid).0) && OnTime(SuspendStep(k, pid).0)
  {
    SuspendOk(k, pid);
    if !BadPid(k, pid) && pid != NULLPROC && k.procs[pid].state in {PrCurr, PrReady} {
      var k1 := SetState(OffQueue(k, pid), pid, PrSusp);
      OnTimeFrame(k, k1);
      if k.procs[pid].state == PrCurr {
        assert PrioOk(k, pid) by {
          assert BaseSpelledOut(k);
        }
        OnTimeFrame(k1, Resched(k1));
      }
    }
  }

  lemma ResumeTime(k: Kernel, pid: int)
    requires Inv(k) && OnTime(k)
    ensures Sized(ResumeStep(k, pid).0) && OnTime(ResumeStep(k, pid).0)
  {
    ResumeOk(k, pid);
    if !BadPid(k, pid) && k.procs[pid].state == PrSusp {
      assert BaseSpelledOut(k);
      assert MailOk(k, pid);
      MadeReadyTime(k, pid);
      BaseTo(k, pid, -1);
      MadeReadyOk(k, pid, -1);
      BaseFrom(MadeReady(k, pid), pid, -1);
      ReschedTime(MadeReady(k, pid));
    }
  }

  lemma FinishTime(k: Kernel)
    requires Inv(k) && OnTime(k) && k.pend[k.curr] != Nothing
    ensures Sized(FinishStep(k).0) && OnTime(FinishStep(k).0)
  {
    FinishOk(k);
    var c := k.curr;
    if k.pend[c] == InTick {
      var k1 := k.(pend := k.pend[c := Nothing]);
      PendOk(k, c, Nothing);
      OnTimeFrame(k, k1);
      SlicedTime(k1);
    } else {
      OnTimeFrame(k, FinishStep(k).0);
    }
  }

  // ---- runs

  ghost predicate Legal(k: Kernel, es: seq<Event>)
    decreases |es|
  {
    es == [] || (Sized(k) && Enabled(k, es[0]) && Legal(Step(k, es[0]).0, es[1..]))
  }

  ghost function Run(k: Kernel, es: seq<Event>): Kernel
    requires Legal(k, es)
    decreases |es|
  {
    if es == [] then k else Run(Step(k, es[0]).0, es[1..])
  }

  /** No run breaks the invariant, whatever the delays. */
  lemma {:induction false} RunInv(k: Kernel, es: seq<Event>)
    requires Inv(k) && Legal(k, es)
    ensures Inv(Run(k, es))
    decreases |es|
  {
    if es != [] {
      StepKeeps(k, es[0]);
      RunInv(Step(k, es[0]).0, es[1..]);
    }
  }

  /** In every reachable state every process is where its state says, the highest priority runs,
      semaphores and mailboxes are as they should be, and sleepers are on time. */
  lemma {:induction false} RunKeeps(k: Kernel, es: seq<Event>)
    requires Inv(k) && OnTime(k) && Legal(k, es) && forall i :: 0 <= i < |es| ==> GoodDelay(es[i])
    ensures Inv(Run(k, es)) && OnTime(Run(k, es))
    decreases |es|
  {
    if es != [] {
      StepOnTime(k, es[0]);
      RunKeeps(Step(k, es[0]).0, es[1..]);
    }
  }

  /** The tables go through the states of the run. */
  method Perform(t: Processes.ProcessTable, es: seq<Event>)
    requires t.Valid() && Legal(t.st, es)
    modifies t, t.proctab, t.semtab, t.qkey, t.links, t.pend
    ensures t.Valid() && t.st == Run(old(t.st), es)
  {
    var i := 0;
    assert es[0..] == es;
    while i < |es|
      invariant 0 <= i <= |es| && t.Valid() && Legal(t.st, es[i..]) && Run(t.st, es[i..]) == Run(old(t.st), es)
    {
      assert es[i..][0] == es[i] && es[i..][1..] == es[i + 1..];
      var _ := t.Do(es[i]);
      i := i + 1;
    }
  }

  /** Who is where, by state: no process is on two queues, or on none while it should be on one. */
  lemma ExactlyOneQueue(k: Kernel, pid: int)
    requires Inv(k) && 0 <= pid < |k.procs|
    ensures forall i :: 0 <= i < |k.q| ==> (pid in k.q[i] <==> QueueOf(k, pid) == i)
    ensures k.procs[pid].state in {PrFree, PrCurr, PrRecv, PrSusp} ==> forall i :: 0 <= i < |k.q| ==> pid !in k.q[i]
  {
    assert BaseSpelledOut(k);
    assert OnlyHere(k, pid);
    forall i | 0 <= i < |k.q|
      ensures pid in k.q[i] <==> QueueOf(k, pid) == i
    {
      assert QueueOk(k, i);
    }
  }

  // ---- mailboxes

  datatype Obs = Sent(pid: int, msg: int) | Got(pid: int, msg: int)

  /** What a step shows: an accepted send, or a message handed to its receiver. */
  function Shown(k: Kernel, e: Event): seq<Obs>
    requires Sized(k) && Enabled(k, e)
  {
    var r := Step(k, e).1;
    match e
    case Send(pid, msg) => if r == Ok then [Sent(pid, msg)] else []
    case Receive => if r.Value? then [Got(k.curr, r.v)] else []
    case Recvtime(_) => if r.Value? then [Got(k.curr, r.v)] else []
    case Recvclr => if r.Value? then [Got(k.curr, r.v)] else []
    case Finish => if r.Value? then [Got(k.curr, r.v)] else []
    case _ => []
  }

  function SentTo(tr: seq<Obs>, pid: int): seq<int> {
    if tr == [] then []
    else
      var rest := SentTo(tr[1..], pid);
      if tr[0].Sent? && tr[0].pid == pid then [tr[0].msg] + rest else rest
  }

  function GotBy(tr: seq<Obs>, pid: int): seq<int> {
    if tr == [] then []
    else
      var rest := GotBy(tr[1..], pid);
      if tr[0].Got? && tr[0].pid == pid then [tr[0].msg] + rest else rest
  }

  function Trace(k: Kernel, es: seq<Event>): seq<Obs>
    requires Legal(k, es)
    decreases |es|
  {
    if es == [] then [] else Shown(k, es[0]) + Trace(Step(k, es[0]).0, es[1..])
  }

  /** A mailbox's history after a step that showed this. */
  function LogAfter(g: Log, sh: seq<Obs>, pid: int): Log {
    if sh == [] || sh[0].pid != pid then g
    else if sh[0].Sent? then g.(sent := g.sent + [sh[0].msg])
    else g.(got := g.got + [sh[0].msg])
  }

  /** The loops that release processes do not touch mailboxes. */
  lemma OneLog(k: Kernel, s: int)
    requires Sized(k)
    ensures 0 <= s < |k.sems| ==> Signalled(k, s).log == k.log && (k.q[s] != [] && 0 <= k.q[s][0] < |k.procs| ==> MadeReady(k, k.q[s][0]).log == k.log)
    ensures Woken(k).log == k.log
  {
    hide Place, InsertAt, Without;
  }

  lemma {:induction false} LoopsLog(k: Kernel, s: int, n: nat)
    requires Sized(k)
    ensures 0 <= s < |k.sems| ==> SignalledTimes(k, s, n).log == k.log && AllReady(k, s, n).log == k.log
    ensures WokenTimes(k, n).log == k.log
  {
    hide MadeReady, Signalled, Woken;
    if n > 0 {
      LoopsLog(k, s, n - 1);
      if 0 <= s < |k.sems| {
        OneLog(SignalledTimes(k, s, n - 1), s);
        OneLog(AllReady(k, s, n - 1), s);
      }
      OneLog(WokenTimes(k, n - 1), s);
    }
  }

  /** Rescheduling does not either. */
  lemma ReschedLog(k: Kernel)
    requires Sized(k)
    ensures Resched(k).log == k.log
  {
  }

  lemma ReadyLog(k: Kernel, pid: int)
    requires Sized(k) && 0 <= pid < |k.procs|
    ensures Sized(MadeReady(k, pid)) && MadeReady(k, pid).log == k.log && Sized(Unslept(k, pid)) && Unslept(k, pid).log == k.log
    ensures Unslept(k, pid).procs == k.procs
  {
  }

  lemma ClearLog(k: Kernel, s: int, m: Sem)
    requires Sized(k) && 0 <= s < |k.sems|
    ensures var k1 := AllReady(k, s, |k.q[s]|); var k2 := k1.(sems := k1.sems[s := m]); k2.log == k.log && Resched(k2).log == k.log
  {
    LoopsLog(k, s, |k.q[s]|);
    var k1 := AllReady(k, s, |k.q[s]|);
    ReschedLog(k1.(sems := k1.sems[s := m]));
  }

  lemma SemLog(k: Kernel, e: Event)
    requires Sized(k) && Enabled(k, e) && (e.Wait? || e.Signal? || e.Signaln? || e.Semcreate? || e.Semdelete? || e.Semreset?)
    ensures Step(k, e).0.log == k.log && Shown(k, e) == []
  {
    match e
    case Signal(s) =>
      if !BadSem(k, s) {
        LoopsLog(k, s, 1);
        ReschedLog(Signalled(k, s));
      }
    case Signaln(s, count) =>
      if !BadSem(k, s) && count >= 0 {
        LoopsLog(k, s, count);
        ReschedLog(SignalledTimes(k, s, count));
      }
    case Semdelete(s) =>
      if !BadSem(k, s) {
        ClearLog(k, s, Sem(false, if k.sems[s].count < 0 then 1 else k.sems[s].count + 1));
      }
    case Semreset(s, count) =>
      if !BadSem(k, s) {
        LoopsLog(k, s, |k.q[s]|);
        ClearLog(k, s, AllReady(k, s, |k.q[s]|).sems[s].(count := count));
      }
    case _ =>
  }

  lemma SlicedLog(k: Kernel)
    requires Sized(k)
    ensures Sliced(k).log == k.log
  {
    hide Resched;
    ReschedLog(k.(preempt := QUANTUM));
  }

  lemma TickLog(k: Kernel)
    requires Sized(k)
    ensures TickStep(k).0.log == k.log
  {
    hide Resched, Sliced, MadeReady;
    var k1, k2 := Ticked(k), Counted(k);
    LoopsLog(k2, 0, Due(k.q[SleepQ(k)], k2.key));
    ReschedLog(k1);
    SlicedLog(k1);
    ReschedSized(k1);
    if Resched(k1).curr == k1.curr {
      assert Resched(k1).(curr := k1.curr) == Resched(k1);
      SlicedLog(Resched(k1));
    }
  }

  /** Nothing but send and receive changes the history of a mailbox, and they as they should. */
  lemma StepLog(k: Kernel, e: Event, pid: int)
    requires Sized(k) && Enabled(k, e) && 0 <= pid < |k.procs| && !(e.Create? && e.pid == pid)
    ensures |Step(k, e).0.log| == |k.log| && Step(k, e).0.log[pid] == LogAfter(k.log[pid], Shown(k, e), pid) && |Shown(k, e)| <= 1
  {
    if e.Wait? || e.Signal? || e.Signaln? || e.Semcreate? || e.Semdelete? || e.Semreset? {
      SemLog(k, e);
    } else if e.Tick? {
      TickLog(k);
    } else if e.Send? || e.Receive? || e.Recvtime? || e.Recvclr? || e.Finish? {
      MailLog(k, e, pid);
    } else {
      OtherLog(k, e, pid);
    }
  }

  lemma MailLog(k: Kernel, e: Event, pid: int)
    requires Sized(k) && Enabled(k, e) && 0 <= pid < |k.procs| && (e.Send? || e.Receive? || e.Recvtime? || e.Recvclr? || e.Finish?)
    ensures |Step(k, e).0.log| == |k.log| && Step(k, e).0.log[pid] == LogAfter(k.log[pid], Shown(k, e), pid) && |Shown(k, e)| <= 1
  {
    if e.Send? {
      SendLog(k, e, pid);
    } else if e.Finish? {
      FinishLog(k, pid);
    } else {
      TakeLog(k, e, pid);
    }
  }

  lemma SendLog(k: Kernel, e: Event, pid: int)
    requires Sized(k) && Enabled(k, e) && 0 <= pid < |k.procs| && e.Send?
    ensures |Step(k, e).0.log| == |k.log| && Step(k, e).0.log[pid] == LogAfter(k.log[pid], Shown(k, e), pid) && |Shown(k, e)| <= 1
  {
    hide Resched, MadeReady, Unslept;
    if !BadPid(k, e.pid) && !k.procs[e.pid].hasmsg {
      var k1 := Delivered(k, e.pid, e.msg);
      ReadyLog(k1, e.pid);
      ReadyLog(Unslept(k1, e.pid), e.pid);
      ReschedLog(MadeReady(k1, e.pid));
      ReschedLog(MadeReady(Unslept(k1, e.pid), e.pid));
    }
  }

  lemma FinishLog(k: Kernel, pid: int)
    requires Sized(k) && Enabled(k, Finish) && 0 <= pid < |k.procs|
    ensures |Step(k, Finish).0.log| == |k.log| && Step(k, Finish).0.log[pid] == LogAfter(k.log[pid], Shown(k, Finish), pid) && |Shown(k, Finish)| <= 1
  {
  }

  lemma TakeLog(k: Kernel, e: Event, pid: int)
    requires Sized(k) && Enabled(k, e) && 0 <= pid < |k.procs| && (e.Receive? || e.Recvtime? || e.Recvclr?)
    ensures |Step(k, e).0.log| == |k.log| && Step(k, e).0.log[pid] == LogAfter(k.log[pid], Shown(k, e), pid) && |Shown(k, e)| <= 1
  {
  }

  lemma OtherLog(k: Kernel, e: Event, pid: int)
    requires Sized(k) && Enabled(k, e) && 0 <= pid < |k.procs| && !(e.Create? && e.pid == pid)
    requires e.Suspend? || e.Resume? || e.Yield? || e.Sleepms? || e.Kill? || e.Create?
    ensures |Step(k, e).0.log| == |k.log| && Step(k, e).0.log[pid] == k.log[pid] && Shown(k, e) == []
  {
    hide Place, InsertAt, Without, DeltaPlace, KeyAfter, KeyGiven;
  }

  lemma {:induction false} RunLog(k: Kernel, es: seq<Event>, pid: int)
    requires Inv(k) && Legal(k, es) && 0 <= pid < |k.procs|
    requires forall i :: 0 <= i < |es| ==> !(es[i].Create? && es[i].pid == pid)
    ensures var k', tr := Run(k, es), Trace(k, es);
      && Inv(k') && |k'.procs| == |k.procs|
      && k'.log[pid].sent == k.log[pid].sent + SentTo(tr, pid) && k'.log[pid].got == k.log[pid].got + GotBy(tr, pid)
    decreases |es|
  {
    if es == [] {
      assert SentTo([], pid) == [] && GotBy([], pid) == [];
    } else {
      var k1, sh := Step(k, es[0]).0, Shown(k, es[0]);
      StepKeeps(k, es[0]);
      StepLog(k, es[0], pid);
      RunLog(k1, es[1..], pid);
      var rest := Trace(k1, es[1..]);
      if sh == [] {
        assert sh + rest == rest;
      } else {
        assert sh + rest == [sh[0]] + rest;
        assert (sh + rest)[0] == sh[0] && (sh + rest)[1..] == rest;
        Associative(k.log[pid].sent, [sh[0].msg], SentTo(rest, pid));
        Associative(k.log[pid].got, [sh[0].msg], GotBy(rest, pid));
      }
    }
  }

  lemma Associative(a: seq<int>, b: seq<int>, c: seq<int>)
    ensures (a + b) + c == a + (b + c)
  {
  }

  /** From any state in which the mailbox is empty: the messages that a process gets are exactly
      those that send accepted for it, each once and in order, but for one that may still be in
      its mailbox. */
  lemma MailboxSafety(k: Kernel, es: seq<Event>, pid: int)
    requires Inv(k) && Legal(k, es) && 0 <= pid < |k.procs| && k.procs[pid].state != PrFree && !k.procs[pid].hasmsg
    requires forall i :: 0 <= i < |es| ==> !(es[i].Create? && es[i].pid == pid)
    ensures var k', tr := Run(k, es), Trace(k, es);
      |k'.procs| == |k.procs| && (k'.procs[pid].state != PrFree ==> SentTo(tr, pid) == GotBy(tr, pid) + if k'.procs[pid].hasmsg then [k'.procs[pid].msg] else [])
  {
    RunLog(k, es, pid);
    var k', tr := Run(k, es), Trace(k, es);
    assert BaseSpelledOut(k) && BaseSpelledOut(k');
    assert MailOk(k, pid) && MailOk(k', pid);
    if k'.procs[pid].state != PrFree {
      Balance(k.log[pid].sent, k.log[pid].got, SentTo(tr, pid), GotBy(tr, pid), if k'.procs[pid].hasmsg then [k'.procs[pid].msg] else []);
    }
  }

  lemma Balance(sent: seq<int>, got: seq<int>, s: seq<int>, g: seq<int>, pending: seq<int>)
    requires sent == got + [] && sent + s == (got + g) + pending
    ensures s == g + pending
  {
    assert s == (sent + s)[|sent|..];
    assert g + pending == ((got + g) + pending)[|got|..];
  }

  /** receive returns only after a send; recvtime says TIMEOUT only if no message is there. */
  lemma ReceiveReturns(k: Kernel)
    requires Inv(k) && k.pend[k.curr] in {InReceive, InRecvtime}
    ensures var (k', r) := FinishStep(k);
      && (k.pend[k.curr] == InReceive ==> k.procs[k.curr].hasmsg)
      && (r == TimeOut <==> !k.procs[k.curr].hasmsg) && (k.procs[k.curr].hasmsg ==> r == Value(k.procs[k.curr].msg))
  {
    FinishOk(k);
  }

  // ---- turns

  /** The current process and those ready after it with the same priority, in turn, and the rest. */
  ghost predicate Ring(k: Kernel, ring: seq<int>, rest: seq<int>)
    requires Sized(k)
  {
    && ring != [] && k.curr == ring[0] && k.q[ReadyQ(k)] == ring[1..] + rest
    && (forall a :: 0 <= a < |ring| ==> 0 <= ring[a] < |k.procs| && k.procs[ring[a]].prio == k.procs[k.curr].prio)
    && (forall a :: 0 <= a < |rest| ==> 0 <= rest[a] < |k.procs| && k.procs[rest[a]].prio < k.procs[k.curr].prio)
  }

  /** A list in falling order starts with those that reach the greatest value allowed. */
  lemma {:induction false} EqualsFirst(l: seq<int>, prio: seq<int>, x: int)
    requires forall a :: 0 <= a < |l| ==> 0 <= l[a] < |prio| && prio[l[a]] <= x
    requires forall a, b :: 0 <= a < b < |l| ==> prio[l[a]] >= prio[l[b]]
    ensures var j := Place(l, prio, x);
      (forall a :: 0 <= a < j ==> prio[l[a]] == x) && (forall a :: j <= a < |l| ==> prio[l[a]] < x)
  {
    PlaceIs(l, prio, x);
  }

  /** In every state that satisfies the invariant the ready list starts with the current process's
      equals. */
  lemma HasRing(k: Kernel) returns (ring: seq<int>, rest: seq<int>)
    requires Inv(k)
    ensures Ring(k, ring, rest)
  {
    hide MailOk, SemOk, PrioOk, Place, Distinct;
    var l, x := k.q[ReadyQ(k)], k.procs[k.curr].prio;
    var prio := seq(|k.procs|, i requires 0 <= i < |k.procs| => k.procs[i].prio);
    assert BaseSpelledOut(k);
    Members(k);
    EqualsFirst(l, prio, x);
    var j := Place(l, prio, x);
    ring, rest := [k.curr] + l[..j], l[j..];
    assert ring[1..] == l[..j];
  }

  function Rotated(ring: seq<int>): seq<int>
    requires ring != []
  {
    ring[1..] + [ring[0]]
  }

  /** The first place whose key is smaller than x. */
  lemma {:induction false} PlaceAt(l: seq<int>, key: seq<int>, x: int, j: nat)
    requires j <= |l| && forall a :: 0 <= a < |l| ==> 0 <= l[a] < |key|
    requires (forall a :: 0 <= a < j ==> key[l[a]] >= x) && (j < |l| ==> key[l[j]] < x)
    ensures Place(l, key, x) == j
  {
    if j > 0 {
      forall a | 0 <= a < j - 1
        ensures key[l[1..][a]] >= x
      {
        assert l[1..][a] == l[a + 1];
      }
      PlaceAt(l[1..], key, x, j - 1);
    }
  }

  /** Where the ring ends in the ready list. */
  lemma RingPlace(k: Kernel, ring: seq<int>, rest: seq<int>)
    requires Queued(k) && Ordered(k) && Ring(k, ring, rest)
    ensures Place(k.q[ReadyQ(k)], k.key, k.procs[k.curr].prio) == |ring| - 1
    ensures |ring| == 1 ==> k.procs[k.curr].prio > FirstKey(k) || k.procs[k.curr].prio <= MINKEY
    ensures |ring| > 1 ==> k.procs[k.curr].prio == FirstKey(k)
  {
    var l, j := k.q[ReadyQ(k)], |ring| - 1;
    Members(k);
    forall a | 0 <= a < |l|
      ensures 0 <= l[a] < |k.key| && (if a < j then k.key[l[a]] == k.procs[k.curr].prio else k.key[l[a]] < k.procs[k.curr].prio)
    {
      assert l[a] == if a < j then ring[a + 1] else rest[a - j];
    }
    PlaceAt(l, k.key, k.procs[k.curr].prio, j);
  }

  /** Giving up the processor to equals puts the process behind all of them. */
  lemma YieldTurns(k: Kernel, ring: seq<int>, rest: seq<int>)
    requires Inv(k) && Ring(k, ring, rest)
    ensures Inv(Resched(k)) && Ring(Resched(k), Rotated(ring), rest)
  {
    ReschedOk(k);
    assert BaseSpelledOut(k);
    RingPlace(k, ring, rest);
    assert PrioOk(k, k.curr);
    if |ring| == 1 {
      assert Rotated(ring) == ring;
    } else {
      var l, j := k.q[ReadyQ(k)], |ring| - 1;
      RingList(ring, rest);
      assert Resched(k).q[ReadyQ(k)] == InsertAt(l, j, k.curr)[1..];
      RingAfter(k, ring, rest);
    }
  }

  lemma RingList(ring: seq<int>, rest: seq<int>)
    requires |ring| > 1
    ensures InsertAt(ring[1..] + rest, |ring| - 1, ring[0])[1..] == Rotated(ring)[1..] + rest
    ensures InsertAt(ring[1..] + rest, |ring| - 1, ring[0])[0] == ring[1]
  {
    var l := ring[1..] + rest;
    assert l[..|ring| - 1] == ring[1..] && l[|ring| - 1..] == rest;
  }

  lemma RingAfter(k: Kernel, ring: seq<int>, rest: seq<int>)
    requires Inv(k) && Ring(k, ring, rest) && |ring| > 1 && Sized(Resched(k))
    requires Resched(k).q[ReadyQ(k)] == Rotated(ring)[1..] + rest && Resched(k).curr == ring[1]
    ensures Ring(Resched(k), Rotated(ring), rest)
  {
    var k' := Resched(k);
    forall p | 0 <= p < |k.procs|
      ensures |k'.procs| == |k.procs| && k'.procs[p].prio == k.procs[p].prio
    {
    }
    forall a | 0 <= a < |Rotated(ring)|
      ensures Rotated(ring)[a] in ring
    {
      assert Rotated(ring)[a] == ring[if a + 1 < |ring| then a + 1 else 0];
    }
  }

  function YieldTimes(k: Kernel, n: nat): Kernel
    requires Sized(k)
  {
    if n == 0 then k
    else
      var k1 := YieldTimes(k, n - 1);
      if 0 <= k1.curr < |k1.procs| == |k1.key| && |k1.q| == |k1.sems| + 2 then Resched(k1) else k1
  }

  /** Among equals the processor goes round: the process n places on runs after n yields, and once
      each of them has had a turn, the turns start again as they were. */
  lemma {:induction false} RoundRobin(k: Kernel, ring: seq<int>, rest: seq<int>, n: nat)
    requires Inv(k) && Ring(k, ring, rest) && n <= |ring|
    ensures var k' := YieldTimes(k, n);
      && Inv(k') && Ring(k', ring[n..] + ring[..n], rest)
      && (n < |ring| ==> k'.curr == ring[n]) && (n == |ring| ==> k'.curr == ring[0] && k'.q[ReadyQ(k')] == k.q[ReadyQ(k)])
  {
    if n == 0 {
      assert ring[0..] + ring[..0] == ring;
    } else {
      var turned := ring[n - 1..] + ring[..n - 1];
      RoundRobin(k, ring, rest, n - 1);
      YieldTurns(YieldTimes(k, n - 1), turned, rest);
      RotatedIs(ring, n);
    }
  }

  lemma RotatedIs(ring: seq<int>, n: nat)
    requires 0 < n <= |ring|
    ensures Rotated(ring[n - 1..] + ring[..n - 1]) == ring[n..] + ring[..n]
    ensures n == |ring| ==> ring[n..] + ring[..n] == ring
  {
  }
}
