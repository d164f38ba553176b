/** Those who wait: semaphores serve first come first, and sleepers wake on their tick. */
module ProcessWaits {
  import opened DistinctLists
  import opened ProcessSpec
  import opened ProcessSteps
  import opened ProcessCalls
  import opened ProcessKeeps
  import opened ProcessClock
  import opened ProcessRuns
  import Processes

  predicate Sleeps(k: Kernel, p: int) { 0 <= p < |k.procs| && k.procs[p].state in {PrSleep, PrRectim} }

  /** Process p sleeps on as before. */
  ghost predicate SleepsOn(k: Kernel, k': Kernel, p: int)
    requires Sized(k) && Sized(k')
  {
    |k'.procs| == |k.procs| && 0 <= p < |k.procs| && k'.procs[p].state == k.procs[p].state && k'.wake[p] == k.wake[p]
  }

  /** What does not concern semaphore s or sleeper p. */
  ghost predicate Apart(k: Kernel, k': Kernel, s: int, p: int)
    requires Sized(k) && 0 <= s < |k.sems|
  {
    && Sized(k') && |k'.sems| == |k.sems| && k'.q[s] == k.q[s] && k'.now == k.now
    && (Sleeps(k, p) ==> SleepsOn(k, k', p))
  }

  lemma ReschedApart(k: Kernel, s: int, p: int)
    requires Base(k) && 0 <= s < |k.sems|
    ensures Apart(k, Resched(k), s, p)
  {
    ReschedOk(k);
    assert BaseSpelledOut(k);
    Members(k);
    assert PrioOk(k, k.curr);
  }

  lemma ReadyApart(k: Kernel, pid: int, s: int, p: int)
    requires Sized(k) && 0 <= pid < |k.procs| && pid != p && 0 <= s < |k.sems| && QueueOf(k, pid) != s
    ensures Apart(k, MadeReady(k, pid), s, p)
  {
  }

  // ---- semaphores

  /** A release from semaphore r takes the first waiter, and touches no sleeper. */
  lemma ReleaseFrom(k: Kernel, r: int, s: int, p: int)
    requires Sized(k) && 0 <= r < |k.sems| && 0 <= s < |k.sems| && QueueOk(k, r) && k.q[r] != []
    ensures var k' := MadeReady(k, k.q[r][0]);
      && Sized(k') && |k'.sems| == |k.sems| && k'.now == k.now && (Sleeps(k, p) ==> SleepsOn(k, k', p))
      && k'.q[s] == if r == s then k.q[s][1..] else k.q[s]
  {
    var pid := k.q[r][0];
    assert QueueOf(k, pid) == r;
    assert Without(k.q[r], pid) == k.q[r][1..];
    if r != s {
      assert OffQueue(k, pid).q[s] == k.q[s];
    }
  }

  /** The first n waiters of r are released, and no sleeper is touched. */
  ghost predicate Released(k: Kernel, k': Kernel, r: int, n: nat, s: int, p: int)
    requires Sized(k) && 0 <= r < |k.sems| && n <= |k.q[r]| && 0 <= s < |k.sems|
  {
    && Sized(k') && |k'.sems| == |k.sems| && k'.now == k.now && (Sleeps(k, p) ==> SleepsOn(k, k', p))
    && k'.q[s] == if r == s then k.q[s][n..] else k.q[s]
  }

  lemma OneMoreReleased(k: Kernel, k1: Kernel, r: int, n: nat, s: int, p: int)
    requires Sized(k) && 0 <= r < |k.sems| && n < |k.q[r]| && 0 <= s < |k.sems|
    requires Released(k, k1, r, n, s, p) && QueueOk(k1, r) && k1.q[r] == k.q[r][n..]
    ensures 0 <= k1.q[r][0] < |k1.procs| && Released(k, MadeReady(k1, k1.q[r][0]), r, n + 1, s, p)
  {
    hide MadeReady;
    ReleaseFrom(k1, r, s, p);
    assert k.q[r][n..][1..] == k.q[r][n + 1..];
  }

  lemma {:induction false} AllReleased(k: Kernel, r: int, n: nat, s: int, p: int)
    requires Base(k) && 0 <= r < |k.sems| && n <= |k.q[r]| && 0 <= s < |k.sems|
    ensures Released(k, AllReady(k, r, n), r, n, s, p)
  {
    hide MadeReady;
    if n > 0 {
      AllReleased(k, r, n - 1, s, p);
      AllReadyOk(k, r, n - 1);
      OneMoreReleased(k, AllReady(k, r, n - 1), r, n - 1, s, p);
    }
  }

  lemma SignalFrom(k: Kernel, r: int, s: int, p: int)
    requires Base(k) && 0 <= r < |k.sems| && k.sems[r].used && 0 <= s < |k.sems|
    ensures var k' := Signalled(k, r);
      && Sized(k') && |k'.sems| == |k.sems| && k'.now == k.now && (Sleeps(k, p) ==> SleepsOn(k, k', p))
      && (r == s && k.sems[r].count < 0 ==> k.q[s] != []) && k'.q[s] == if r == s && k.sems[r].count < 0 then k.q[s][1..] else k.q[s]
  {
    assert BaseSpelledOut(k);
    assert SemOk(k, r) && QueueOk(k, r);
    if k.sems[r].count < 0 {
      var k1 := Count(k, r, k.sems[r].count + 1);
      assert QueueOk(k1, r);
      ReleaseFrom(k1, r, s, p);
    }
  }

  lemma {:induction false} SignalledFrom(k: Kernel, r: int, n: nat, s: int, p: int) returns (m: nat)
    requires Base(k) && 0 <= r < |k.sems| && k.sems[r].used && 0 <= s < |k.sems|
    ensures var k' := SignalledTimes(k, r, n);
      && Sized(k') && |k'.sems| == |k.sems| && k'.now == k.now && (Sleeps(k, p) ==> SleepsOn(k, k', p))
      && m <= |k.q[s]| && k'.q[s] == k.q[s][m..]
  {
    hide Signalled, MadeReady;
    m := 0;
    if n > 0 {
      m := SignalledFrom(k, r, n - 1, s, p);
      SignalledTimesOk(k, r, n - 1);
      var k1 := SignalledTimes(k, r, n - 1);
      SignalFrom(k1, r, s, p);
      assert BaseSpelledOut(k1);
      assert SemOk(k1, r);
      if r == s && k1.sems[r].count < 0 {
        assert k.q[s][m..][1..] == k.q[s][m + 1..];
        m := m + 1;
      }
    }
  }

  /** How a queue of waiters can change in a step: the first n are released, or the current process
      comes last, or somebody is killed. */
  ghost predicate QueueStep(k: Kernel, e: Event, k': Kernel, s: int, n: nat)
    requires Sized(k) && 0 <= s < |k.sems|
  {
    && Sized(k') && |k'.sems| == |k.sems| && n <= |k.q[s]|
    && (k'.q[s] == k.q[s][n..] || (n == 0 && e == Wait(s) && k'.q[s] == k.q[s] + [k.curr]) || (n == 0 && e.Kill? && k'.q[s] == Without(k.q[s], e.pid)))
  }

  /** What ends the sleep of p, but for its tick. */
  predicate Disturbs(k: Kernel, e: Event, p: int)
    requires 0 <= p < |k.procs|
  {
    e == Kill(p) || (e.Send? && e.pid == p && k.procs[p].state == PrRectim)
  }

  lemma WaitWaits(k: Kernel, r: int, s: int, p: int)
    requires Inv(k) && Enabled(k, Wait(r)) && 0 <= s < |k.sems|
    ensures var k' := WaitStep(k, r).0;
      QueueStep(k, Wait(r), k', s, 0) && (Sleeps(k, p) ==> SleepsOn(k, k', p)) && k'.now == k.now
  {
    if !BadSem(k, r) {
      var c, k1 := k.curr, Count(k, r, k.sems[r].count - 1);
      if k1.sems[r].count < 0 {
        Processes.WaitBase(k, r);
        ReschedApart(k1.(procs := k.procs[c := k.procs[c].(state := PrWait, sem := r)], q := k.q[r := k.q[r] + [c]]), s, p);
      }
    }
  }

  lemma ClearWaits(k: Kernel, r: int, m: Sem, s: int, p: int) returns (n: nat)
    requires Inv(k) && 0 <= r < |k.sems| && k.sems[r].used && (m.used ==> m.count >= 0) && 0 <= s < |k.sems|
    ensures var k1 := AllReady(k, r, |k.q[r]|);
      var k2 := k1.(sems := k1.sems[r := m]);
      var k' := if k.q[r] != [] then Resched(k2) else k2;
      && Sized(k') && |k'.sems| == |k.sems| && n <= |k.q[s]| && k'.q[s] == k.q[s][n..] && k'.now == k.now && (Sleeps(k, p) ==> SleepsOn(k, k', p))
  {
    ClearBase(k, r, m);
    AllReleased(k, r, |k.q[r]|, s, p);
    var k1 := AllReady(k, r, |k.q[r]|);
    ReschedApart(k1.(sems := k1.sems[r := m]), s, p);
    n := if r == s then |k.q[s]| else 0;
  }

  lemma SemWaits(k: Kernel, e: Event, s: int, p: int) returns (n: nat)
    requires Inv(k) && Enabled(k, e) && 0 <= s < |k.sems| && (e.Wait? || e.Signal? || e.Signaln? || e.Semdelete? || e.Semreset? || e.Semcreate?)
    ensures var k' := Step(k, e).0;
      QueueStep(k, e, k', s, n) && (Sleeps(k, p) ==> SleepsOn(k, k', p)) && k'.now == k.now
  {
    n := 0;
    match e
    case Wait(r) => WaitWaits(k, r, s, p);
    case Signal(r) =>
      if !BadSem(k, r) {
        SignalledOk(k, r);
        SignalFrom(k, r, s, p);
        ReschedApart(Signalled(k, r), s, p);
        n := if r == s && k.sems[r].count < 0 then 1 else 0;
      }
    case Signaln(r, count) =>
      if !BadSem(k, r) && count >= 0 {
        SignalledTimesOk(k, r, count);
        n := SignalledFrom(k, r, count, s, p);
        ReschedApart(SignalledTimes(k, r, count), s, p);
      }
    case Semdelete(r) =>
      if !BadSem(k, r) {
        n := ClearWaits(k, r, Sem(false, if k.sems[r].count < 0 then 1 else k.sems[r].count + 1), s, p);
      }
    case Semreset(r, count) =>
      if count >= 0 && !BadSem(k, r) {
        Processes.ResetParts(k, r, count);
        n := ClearWaits(k, r, Sem(true, count), s, p);
      }
    case Semcreate(_) =>
  }

  lemma AsleepApart(k: Kernel, d: int, state: PrState, s: int, p: int)
    requires Sized(k) && k.procs[k.curr].state == PrCurr && 0 <= s < |k.sems|
    ensures Apart(k, Asleep(k, k.curr, d, state), s, p)
  {
  }

  lemma MailWaits(k: Kernel, e: Event, s: int, p: int)
    requires Inv(k) && Enabled(k, e) && 0 <= s < |k.sems| && (e.Send? || e.Receive? || e.Recvtime? || e.Recvclr?)
    ensures var k' := Step(k, e).0;
      Sized(k') && |k'.sems| == |k.sems| && k'.q[s] == k.q[s] && k'.now == k.now && (Sleeps(k, p) && !Disturbs(k, e, p) ==> SleepsOn(k, k', p))
  {
    var c := k.curr;
    match e
    case Send(pid, msg) =>
      if !BadPid(k, pid) && !k.procs[pid].hasmsg {
        SendWaits(k, pid, msg, s, p);
      }
    case Receive =>
      if !k.procs[c].hasmsg {
        ReceiveBase(k);
        ReschedApart(SetState(k.(pend := k.pend[c := InReceive]), c, PrRecv), s, p);
      }
    case Recvtime(maxwait) =>
      if maxwait >= 0 && !k.procs[c].hasmsg {
        RecvtimeBase(k, maxwait);
        var k1 := k.(pend := k.pend[c := InRecvtime]);
        AsleepApart(k1, maxwait, PrRectim, s, p);
        ReschedApart(Asleep(k1, c, maxwait, PrRectim), s, p);
      }
    case Recvclr =>
  }

  lemma SendWaits(k: Kernel, pid: int, msg: int, s: int, p: int)
    requires Inv(k) && !BadPid(k, pid) && !k.procs[pid].hasmsg && 0 <= s < |k.sems|
    ensures var k' := SendStep(k, pid, msg).0;
      Sized(k') && |k'.sems| == |k.sems| && k'.q[s] == k.q[s] && k'.now == k.now && (Sleeps(k, p) && !Disturbs(k, Send(pid, msg), p) ==> SleepsOn(k, k', p))
  {
    SendBase(k, pid, msg);
    var k1 := Delivered(k, pid, msg);
    if k.procs[pid].state == PrRecv {
      ReadyApart(k1, pid, s, if p == pid then -1 else p);
      ReschedApart(MadeReady(k1, pid), s, p);
    } else if k.procs[pid].state == PrRectim {
      ReadyApart(Unslept(k1, pid), pid, s, if p == pid then -1 else p);
      ReschedApart(MadeReady(Unslept(k1, pid), pid), s, p);
    }
  }

  lemma KillWaits(k: Kernel, pid: int, s: int, p: int)
    requires Inv(k) && 0 <= s < |k.sems|
    ensures var k' := KillStep(k, pid).0;
      QueueStep(k, Kill(pid), k', s, 0) && k'.now == k.now && (Sleeps(k, p) && pid != p ==> SleepsOn(k, k', p))
  {
    if !BadPid(k, pid) && pid != NULLPROC {
      assert BaseSpelledOut(k);
      assert OnlyHere(k, pid) && PrioOk(k, pid);
      if k.procs[pid].state == PrCurr {
        Processes.KillBase(k);
        ReschedApart(SetState(k, pid, PrFree), s, p);
      }
    }
  }

  lemma ProcWaits(k: Kernel, e: Event, s: int, p: int)
    requires Inv(k) && Enabled(k, e) && 0 <= s < |k.sems| && (e.Suspend? || e.Resume? || e.Yield? || e.Sleepms? || e.Create?)
    ensures Apart(k, Step(k, e).0, s, p)
  {
    hide Resched, MadeReady, Without;
    assert BaseSpelledOut(k);
    match e
    case Suspend(pid) =>
      if !BadPid(k, pid) && pid != NULLPROC && k.procs[pid].state in {PrCurr, PrReady} {
        SuspendBase(k, pid);
        ReschedApart(SetState(OffQueue(k, pid), pid, PrSusp), s, p);
      }
    case Resume(pid) =>
      if !BadPid(k, pid) && k.procs[pid].state == PrSusp {
        ResumeBase(k, pid);
        ReadyApart(k, pid, s, if p == pid then -1 else p);
        ReschedApart(MadeReady(k, pid), s, p);
      }
    case Yield => ReschedApart(k, s, p);
    case Sleepms(delay) =>
      if delay == 0 {
        ReschedApart(k, s, p);
      } else {
        var d := Int32(delay);
        SleepBase(k, d);
        AsleepApart(k, d, PrSleep, s, p);
        ReschedApart(Asleep(k, k.curr, d, PrSleep), s, p);
      }
    case Create(_, _) =>
  }

  lemma SlicedApart(k: Kernel, s: int, p: int)
    requires Inv(k) && 0 <= s < |k.sems|
    ensures Apart(k, Sliced(k), s, p)
  {
    if k.preempt - 1 <= 0 {
      PreemptBase(k, QUANTUM);
      ReschedApart(k.(preempt := QUANTUM), s, p);
    }
  }

  lemma FinishWaits(k: Kernel, s: int, p: int)
    requires Inv(k) && k.pend[k.curr] != Nothing && 0 <= s < |k.sems|
    ensures Apart(k, FinishStep(k).0, s, p)
  {
    if k.pend[k.curr] == InTick {
      Processes.FinishBase(k);
      SlicedApart(k.(pend := k.pend[k.curr := Nothing]), s, p);
    }
  }

  lemma {:induction false} WokenWaits(k: Kernel, n: nat, s: int)
    requires Base(k) && n <= |k.q[SleepQ(k)]| && 0 <= s < |k.sems|
    ensures Sized(WokenTimes(k, n)) && WokenTimes(k, n).q[s] == k.q[s] && WokenTimes(k, n).now == k.now
  {
    hide MadeReady, Ordered, SemOk, MailOk, PrioOk, OnlyHere;
    if n > 0 {
      WokenWaits(k, n - 1, s);
      WokenTimesOk(k, n - 1);
      var k1 := WokenTimes(k, n - 1);
      assert BaseSpelledOut(k1);
      assert QueueOk(k1, SleepQ(k1));
      ReadyApart(k1, k1.q[SleepQ(k1)][0], s, -1);
    }
  }

  lemma TickedQueues(k: Kernel, s: int)
    requires Inv(k) && 0 <= s < |k.sems|
    ensures var k1 := Ticked(k); Sized(k1) && |k1.sems| == |k.sems| && k1.q[s] == k.q[s] && k1.now == k.now + 1
  {
    hide WokenTimes, BaseCore;
    var l, k2 := k.q[SleepQ(k)], Counted(k);
    Processes.CountParts(k);
    if l != [] {
      WokenTimesOk(k2, Due(l, k2.key));
      WokenWaits(k2, Due(l, k2.key), s);
    }
  }

  /** The count of a tick, before any rescheduling. */
  lemma TickedWaits(k: Kernel, s: int, p: int)
    requires Inv(k) && 0 <= s < |k.sems|
    ensures var k1 := Ticked(k);
      && Sized(k1) && |k1.sems| == |k.sems| && k1.q[s] == k.q[s] && k1.now == k.now + 1
      && (OnTime(k) && Sleeps(k, p) ==> if k.wake[p] == k.now + 1 then k1.procs[p].state == PrReady else SleepsOn(k, k1, p))
  {
    hide Ticked;
    TickedQueues(k, s);
    if OnTime(k) {
      TickWakes(k);
      TickOnTime(k);
    }
  }

  /** A tick releases nobody from a semaphore, and a sleeper only when it is time. */
  lemma TickWaits(k: Kernel, s: int, p: int)
    requires Inv(k) && k.pend[k.curr] == Nothing && 0 <= s < |k.sems|
    ensures var k' := TickStep(k).0;
      && Sized(k') && |k'.sems| == |k.sems| && |k'.procs| == |k.procs| && k'.q[s] == k.q[s] && k'.now == k.now + 1
      && (OnTime(k) && Sleeps(k, p) ==> if k.wake[p] == k.now + 1 then k'.procs[p].state in {PrReady, PrCurr} else SleepsOn(k, k', p))
  {
    var k1, k3 := Ticked(k), Processes.AfterCount(k);
    TickedWaits(k, s, p);
    TickedOk(k);
    Processes.CountParts(k);
    if |k1.q[SleepQ(k)]| < |k.q[SleepQ(k)]| {
      ReschedApart(k1, s, p);
      ReadyStays(k1, p);
    }
    if k3.curr == k.curr {
      SlicedApart(k3, s, p);
      SlicedReady(k3, p);
    }
  }

  /** Rescheduling leaves who is ready ready, or makes it current. */
  lemma ReadyStays(k: Kernel, p: int)
    requires Base(k)
    ensures |Resched(k).procs| == |k.procs| && (0 <= p < |k.procs| && k.procs[p].state in {PrReady, PrCurr} ==> Resched(k).procs[p].state in {PrReady, PrCurr})
  {
    ReschedOk(k);
    assert BaseSpelledOut(k);
    Members(k);
  }

  lemma SlicedReady(k: Kernel, p: int)
    requires Inv(k)
    ensures |Sliced(k).procs| == |k.procs| && (0 <= p < |k.procs| && k.procs[p].state in {PrReady, PrCurr} ==> Sliced(k).procs[p].state in {PrReady, PrCurr})
  {
    if k.preempt - 1 <= 0 {
      PreemptBase(k, QUANTUM);
      ReadyStays(k.(preempt := QUANTUM), p);
    }
  }

  // ---- any step

  lemma QueueSteps(k: Kernel, e: Event, s: int) returns (n: nat)
    requires Inv(k) && Enabled(k, e) && 0 <= s < |k.sems|
    ensures QueueStep(k, e, Step(k, e).0, s, n)
  {
    hide WaitStep, SignalStep, SignalnStep, SemcreateStep, SemdeleteStep, SemresetStep, SendStep, ReceiveStep, RecvtimeStep, RecvclrStep, SuspendStep, ResumeStep, Resched, SleepStep, KillStep, CreateStep, TickStep, FinishStep, BaseCore;
    n := 0;
    if e.Wait? || e.Signal? || e.Signaln? || e.Semdelete? || e.Semreset? || e.Semcreate? {
      n := SemWaits(k, e, s, -1);
    } else if e.Send? || e.Receive? || e.Recvtime? || e.Recvclr? {
      MailWaits(k, e, s, -1);
    } else if e.Suspend? || e.Resume? || e.Yield? || e.Sleepms? || e.Create? {
      ProcWaits(k, e, s, -1);
    } else if e.Kill? {
      KillWaits(k, e.pid, s, -1);
    } else if e.Tick? {
      TickWaits(k, s, -1);
    } else {
      FinishWaits(k, s, -1);
    }
  }

  /** First come, first served: while an earlier waiter is still there, a later one can leave only
      by being killed. */
  lemma FirstServed(k: Kernel, e: Event, s: int, a: int, b: int)
    requires Inv(k) && Enabled(k, e) && 0 <= s < |k.sems| && 0 <= a < b < |k.q[s]|
    ensures Sized(Step(k, e).0) && |Step(k, e).0.sems| == |k.sems|
    ensures var l' := Step(k, e).0.q[s]; k.q[s][a] in l' && k.q[s][b] !in l' ==> e == Kill(k.q[s][b])
  {
    var n := QueueSteps(k, e, s);
    var l, l' := k.q[s], Step(k, e).0.q[s];
    assert BaseSpelledOut(k);
    assert QueueOk(k, s);
    if l' == l[n..] {
      if l[a] in l' {
        var c :| 0 <= c < |l'| && l'[c] == l[a];
        assert l[n + c] == l[a];
        assert l'[b - n] == l[b];
      }
    } else if e.Kill? && l' == Without(l, e.pid) {
      WithoutIs(l, e.pid);
    }
  }

  lemma SleeperStep(k: Kernel, e: Event, p: int)
    requires Inv(k) && Enabled(k, e) && OnTime(k) && Sleeps(k, p) && !Disturbs(k, e, p)
    ensures var k' := Step(k, e).0;
      && Sized(k') && k'.now == k.now + (if e.Tick? then 1 else 0)
      && (e.Tick? && k.wake[p] == k.now + 1 ==> |k'.procs| == |k.procs| && k'.procs[p].state in {PrReady, PrCurr})
      && (!(e.Tick? && k.wake[p] == k.now + 1) ==> SleepsOn(k, k', p))
  {
    hide WaitStep, SignalStep, SignalnStep, SemcreateStep, SemdeleteStep, SemresetStep, SendStep, ReceiveStep, RecvtimeStep, RecvclrStep, SuspendStep, ResumeStep, Resched, SleepStep, KillStep, CreateStep, TickStep, FinishStep, BaseCore;
    if e.Wait? || e.Signal? || e.Signaln? || e.Semdelete? || e.Semreset? || e.Semcreate? {
      var n := SemWaits(k, e, 0, p);
    } else if e.Send? || e.Receive? || e.Recvtime? || e.Recvclr? {
      MailWaits(k, e, 0, p);
    } else if e.Suspend? || e.Resume? || e.Yield? || e.Sleepms? || e.Create? {
      ProcWaits(k, e, 0, p);
    } else if e.Kill? {
      KillWaits(k, e.pid, 0, p);
    } else if e.Tick? {
      TickWaits(k, 0, p);
    } else {
      FinishWaits(k, 0, p);
    }
  }

  /** Nothing in the run ends p's sleep early. */
  ghost predicate Undisturbed(k: Kernel, es: seq<Event>, p: int)
    requires Legal(k, es)
    decreases |es|
  {
    es == [] || (0 <= p < |k.procs| && !Disturbs(k, es[0], p) && Undisturbed(Step(k, es[0]).0, es[1..], p))
  }

  /** Every undisturbed sleeper sleeps until its own tick, and wakes with it. */
  lemma {:induction false} WakesOnItsTick(k: Kernel, es: seq<Event>, p: int)
    requires Inv(k) && OnTime(k) && Sleeps(k, p) && Legal(k, es) && Undisturbed(k, es, p) && forall i :: 0 <= i < |es| ==> GoodDelay(es[i])
    requires Run(k, es).now < k.wake[p]
    ensures var k' := Run(k, es);
      && Inv(k') && OnTime(k') && Sleeps(k', p) && k'.wake[p] == k.wake[p] && k'.now >= k.now
      && (Enabled(k', Tick) ==> (Sleeps(Step(k', Tick).0, p) <==> k'.now + 1 < k.wake[p]))
    decreases |es|
  {
    if es == [] {
      if Enabled(k, Tick) {
        SleeperStep(k, Tick, p);
      }
    } else {
      var k1 := Step(k, es[0]).0;
      StepOnTime(k, es[0]);
      SleeperStep(k, es[0], p);
      TimeGoesOn(k1, es[1..]);
      WakesOnItsTick(k1, es[1..], p);
    }
  }

  lemma {:induction false} TimeGoesOn(k: Kernel, es: seq<Event>)
    requires Inv(k) && Legal(k, es)
    ensures Run(k, es).now >= k.now
    decreases |es|
  {
    if es != [] {
      var k1 := Step(k, es[0]).0;
      StepKeeps(k, es[0]);
      NowAfter(k, es[0]);
      TimeGoesOn(k1, es[1..]);
    }
  }

  lemma NowAfter(k: Kernel, e: Event)
    requires Inv(k) && Enabled(k, e)
    ensures Step(k, e).0.now == k.now + if e.Tick? then 1 else 0
  {
    hide WaitStep, SignalStep, SignalnStep, SemcreateStep, SemdeleteStep, SemresetStep, SendStep, ReceiveStep, RecvtimeStep, RecvclrStep, SuspendStep, ResumeStep, Resched, SleepStep, KillStep, CreateStep, TickStep, FinishStep, BaseCore;
    if e.Wait? || e.Signal? || e.Signaln? || e.Semdelete? || e.Semreset? || e.Semcreate? {
      var n := SemWaits(k, e, 0, -1);
    } else if e.Send? || e.Receive? || e.Recvtime? || e.Recvclr? {
      MailWaits(k, e, 0, -1);
    } else if e.Suspend? || e.Resume? || e.Yield? || e.Sleepms? || e.Create? {
      ProcWaits(k, e, 0, -1);
    } else if e.Kill? {
      KillWaits(k, e.pid, 0, -1);
    } else if e.Tick? {
      TickWaits(k, 0, -1);
    } else {
      FinishWaits(k, 0, -1);
    }
  }
}
