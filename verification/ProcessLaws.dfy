/** What each call answers, and what it does to whom. */
module ProcessLaws {
  import opened DistinctLists
  import opened ProcessSpec
  import opened ProcessSteps
  import opened ProcessCalls
  import opened ProcessKeeps
  import opened ProcessClock
  import opened ProcessRuns
  import opened ProcessWaits
  import opened ProcessForecast
  import opened ProcessSlices
  import Processes

  predicate IsSem(k: Kernel, s: int) { 0 <= s < |k.sems| && k.sems[s].used }

  predicate Exists(k: Kernel, p: int) { 0 <= p < |k.procs| && k.procs[p].state != PrFree }

  predicate Runnable(k: Kernel, p: int) { 0 <= p < |k.procs| && k.procs[p].state in {PrReady, PrCurr} }

  // ---- semaphores

  /** A call on a semaphore is refused exactly if there is no such semaphore, or the count is negative. */
  lemma SemAnswers(k: Kernel, s: int, count: int)
    requires Sized(k)
    ensures (WaitStep(k, s).1 == SysErr <==> !IsSem(k, s)) && (SignalStep(k, s).1 == SysErr <==> !IsSem(k, s))
    ensures SemdeleteStep(k, s).1 == SysErr <==> !IsSem(k, s)
    ensures (SignalnStep(k, s, count).1 == SysErr <==> !IsSem(k, s) || count < 0) && (SemresetStep(k, s, count).1 == SysErr <==> !IsSem(k, s) || count < 0)
    ensures SignalStep(k, s).1 in {Ok, SysErr} && SignalnStep(k, s, count).1 in {Ok, SysErr} && SemdeleteStep(k, s).1 in {Ok, SysErr} && SemresetStep(k, s, count).1 in {Ok, SysErr}
  {
  }

  lemma {:induction false} FindSemMisses(sems: seq<Sem>, id: int, n: nat, s: int)
    requires 0 <= id < |sems| && 0 <= s < |sems| && !sems[s].used && n <= |sems| && (if id <= s then s - id else s - id + |sems|) < n
    ensures FindSem(sems, id, n) != -1
    decreases n
  {
    if sems[id].used {
      FindSemMisses(sems, if id + 1 >= |sems| then 0 else id + 1, n - 1, s);
    }
  }

  /** How far semaphore s is from id, going up and round. */
  function Way(id: int, s: int, n: int): int { if id <= s then s - id else s - id + n }

  lemma {:induction false} FindSemNearest(sems: seq<Sem>, id: int, n: nat, s: int)
    requires 0 <= id < |sems| && 0 <= s < |sems| && !sems[s].used && n <= |sems| && FindSem(sems, id, n) != -1
    ensures Way(id, FindSem(sems, id, n), |sems|) <= Way(id, s, |sems|) && Way(id, FindSem(sems, id, n), |sems|) < n
    decreases n
  {
    if sems[id].used {
      FindSemNearest(sems, if id + 1 >= |sems| then 0 else id + 1, n - 1, s);
    }
  }

  /** semcreate takes the nearest semaphore not in use, looking up and round from the one after the last
      that was made, and fails exactly if all are in use, or the count is negative. */
  lemma SemcreateIs(k: Kernel, count: int)
    requires Sized(k)
    ensures var (k', r) := SemcreateStep(k, count);
      && (r == SysErr <==> count < 0 || forall s :: 0 <= s < |k.sems| ==> k.sems[s].used)
      && (r != SysErr ==> r.Value? && 0 <= r.v < |k.sems| && !k.sems[r.v].used && k'.sems == k.sems[r.v := Sem(true, count)]
                          && k'.nextsem == (if r.v + 1 == |k.sems| then 0 else r.v + 1)
                          && forall s :: 0 <= s < |k.sems| && !k.sems[s].used ==> Way(k.nextsem, r.v, |k.sems|) <= Way(k.nextsem, s, |k.sems|))
      && k' == k.(sems := k'.sems, nextsem := k'.nextsem)
  {
    if count >= 0 {
      forall s | 0 <= s < |k.sems| && !k.sems[s].used
        ensures FindSem(k.sems, k.nextsem, |k.sems|) != -1 && Way(k.nextsem, FindSem(k.sems, k.nextsem, |k.sems|), |k.sems|) <= Way(k.nextsem, s, |k.sems|)
      {
        FindSemMisses(k.sems, k.nextsem, |k.sems|, s);
        FindSemNearest(k.sems, k.nextsem, |k.sems|, s);
      }
    }
  }

  /** After semdelete the semaphore is not in use and nobody waits for it; the others are as they were. */
  lemma SemdeleteIs(k: Kernel, s: int)
    requires Inv(k) && IsSem(k, s)
    ensures var k' := SemdeleteStep(k, s).0;
      && Sized(k') && |k'.sems| == |k.sems| && !IsSem(k', s) && k'.q[s] == []
      && forall r :: 0 <= r < |k.sems| && r != s ==> k'.sems[r] == k.sems[r]
  {
    hide Resched, MadeReady;
    ClearOk(k, s, Sem(false, if k.sems[s].count < 0 then 1 else k.sems[s].count + 1));
    AllReadyOk(k, s, |k.q[s]|);
    ClearBase(k, s, Sem(false, if k.sems[s].count < 0 then 1 else k.sems[s].count + 1));
    var k1 := AllReady(k, s, |k.q[s]|);
    var k2 := k1.(sems := k1.sems[s := Sem(false, if k.sems[s].count < 0 then 1 else k.sems[s].count + 1)]);
    ReschedFrame(k2);
    assert BaseSpelledOut(SemdeleteStep(k, s).0);
    assert SemOk(SemdeleteStep(k, s).0, s);
  }

  lemma ReschedFrame(k: Kernel)
    requires Sized(k)
    ensures Resched(k).sems == k.sems && |Resched(k).q| == |k.q| && |Resched(k).procs| == |k.procs|
  {
  }

  // ---- who is released runs

  /** Whoever leaves the queue of a semaphore but by being killed is ready. */
  ghost predicate LeaversReady(k: Kernel, k': Kernel, s: int)
    requires Sized(k) && 0 <= s < |k.sems|
  {
    && Sized(k') && |k'.sems| == |k.sems|
    && forall p :: p in k.q[s] && p !in k'.q[s] ==> Runnable(k', p)
  }

  lemma OneLeaves(k: Kernel, k1: Kernel, s: int, r: int)
    requires Sized(k) && 0 <= s < |k.sems| && 0 <= r < |k.sems| && LeaversReady(k, k1, s) && k1.q[r] != [] && QueueOk(k1, r)
    ensures 0 <= k1.q[r][0] < |k1.procs| && LeaversReady(k, MadeReady(k1, k1.q[r][0]), s)
  {
    hide BaseCore, MadeReady, Without, Distinct;
    var p := k1.q[r][0];
    assert QueueOf(k1, p) == r;
    ReadySlice(k1, p);
    ReadyOthers(k1, p);
    IsReady(k1, p);
    ReleaseFrom(k1, r, s, -1);
    var k2 := MadeReady(k1, p);
    if r == s {
      assert k1.q[s] == [p] + k2.q[s];
    }
    forall x | x in k.q[s] && x !in k2.q[s]
      ensures Runnable(k2, x)
    {
    }
  }

  lemma IsReady(k: Kernel, pid: int)
    requires Sized(k) && 0 <= pid < |k.procs|
    ensures |MadeReady(k, pid).procs| == |k.procs| && MadeReady(k, pid).procs[pid].state == PrReady
  {
  }

  lemma {:induction false} SignalledLeave(k: Kernel, r: int, n: nat, s: int)
    requires Base(k) && IsSem(k, r) && 0 <= s < |k.sems|
    ensures LeaversReady(k, SignalledTimes(k, r, n), s)
  {
    hide MadeReady, BaseCore;
    if n > 0 {
      SignalledLeave(k, r, n - 1, s);
      SignalledTimesOk(k, r, n - 1);
      var k1 := SignalledTimes(k, r, n - 1);
      var k2 := Count(k1, r, k1.sems[r].count + 1);
      if k1.sems[r].count < 0 {
        CountedQueue(k1, r);
        LeaveAfterCount(k, k1, r, s);
      }
    }
  }

  lemma CountedQueue(k: Kernel, r: int)
    requires Base(k) && IsSem(k, r) && k.sems[r].count < 0
    ensures k.q[r] != [] && QueueOk(k, r) && 0 <= k.q[r][0] < |k.procs|
  {
    assert BaseSpelledOut(k);
    assert QueueOk(k, r) && SemOk(k, r);
  }

  lemma LeaveAfterCount(k: Kernel, k1: Kernel, r: int, s: int)
    requires Sized(k) && 0 <= s < |k.sems| && LeaversReady(k, k1, s) && IsSem(k1, r) && k1.q[r] != [] && QueueOk(k1, r) && |k1.sems| == |k.sems|
    requires 0 <= k1.q[r][0] < |k1.procs|
    ensures LeaversReady(k, MadeReady(Count(k1, r, k1.sems[r].count + 1), k1.q[r][0]), s)
  {
    hide BaseCore, Place;
    OneLeaves(k, k1, s, r);
    assert MadeReady(Count(k1, r, k1.sems[r].count + 1), k1.q[r][0]) == Count(MadeReady(k1, k1.q[r][0]), r, k1.sems[r].count + 1);
  }

  lemma {:induction false} AllLeave(k: Kernel, r: int, n: nat, s: int)
    requires Base(k) && 0 <= r < |k.sems| && n <= |k.q[r]| && 0 <= s < |k.sems|
    ensures LeaversReady(k, AllReady(k, r, n), s)
  {
    hide MadeReady, BaseBut, LeaversReady;
    if n > 0 {
      AllLeave(k, r, n - 1, s);
      AllReadyOk(k, r, n - 1);
      var k1 := AllReady(k, r, n - 1);
      BaseQueue(k1, k1.curr, r, r);
      OneLeaves(k, k1, s, r);
    } else {
      NoneLeaves(k, k, s);
    }
  }

  lemma BaseQueue(k: Kernel, pid: int, s: int, r: int)
    requires BaseBut(k, pid, s) && 0 <= r < |k.q|
    ensures QueueOk(k, r)
  {
  }

  lemma NoneLeaves(k: Kernel, k': Kernel, s: int)
    requires Sized(k) && Sized(k') && |k'.sems| == |k.sems| && 0 <= s < |k.sems| && forall p :: p in k.q[s] ==> p in k'.q[s]
    ensures LeaversReady(k, k', s)
  {
  }

  lemma LeaversResched(k: Kernel, k1: Kernel, s: int)
    requires Sized(k) && 0 <= s < |k.sems| && Base(k1) && LeaversReady(k, k1, s)
    ensures LeaversReady(k, Resched(k1), s)
  {
    hide Resched, BaseCore;
    ReschedApart(k1, s, -1);
    forall p | p in k.q[s] && p !in k1.q[s]
      ensures Runnable(Resched(k1), p)
    {
      ReadyStays(k1, p);
    }
  }

  lemma SemLeavers(k: Kernel, e: Event, s: int)
    requires Inv(k) && Enabled(k, e) && 0 <= s < |k.sems| && (e.Signal? || e.Signaln? || e.Semdelete? || e.Semreset?)
    ensures LeaversReady(k, Step(k, e).0, s)
  {
    hide Resched, MadeReady, LeaversReady, BaseCore;
    NoneLeaves(k, k, s);
    match e
    case Signal(r) =>
      if !BadSem(k, r) {
        SignalledOk(k, r);
        SignalledLeave(k, r, 1, s);
        assert SignalledTimes(k, r, 1) == Signalled(SignalledTimes(k, r, 0), r) && SignalledTimes(k, r, 0) == k;
        LeaversResched(k, Signalled(k, r), s);
      }
    case Signaln(r, count) =>
      if !BadSem(k, r) && count >= 0 {
        SignalledTimesOk(k, r, count);
        SignalledLeave(k, r, count, s);
        LeaversResched(k, SignalledTimes(k, r, count), s);
      }
    case Semdelete(r) =>
      if !BadSem(k, r) {
        ClearLeavers(k, r, Sem(false, if k.sems[r].count < 0 then 1 else k.sems[r].count + 1), s);
      }
    case Semreset(r, count) =>
      if count >= 0 && !BadSem(k, r) {
        Processes.ResetParts(k, r, count);
        ClearLeavers(k, r, Sem(true, count), s);
      }
  }

  lemma ClearLeavers(k: Kernel, r: int, m: Sem, s: int)
    requires Inv(k) && 0 <= r < |k.sems| && k.sems[r].used && (m.used ==> m.count >= 0) && 0 <= s < |k.sems|
    ensures var k1 := AllReady(k, r, |k.q[r]|);
      var k2 := k1.(sems := k1.sems[r := m]);
      LeaversReady(k, k2, s) && LeaversReady(k, Resched(k2), s)
  {
    hide Resched, BaseCore;
    ClearBase(k, r, m);
    AllLeave(k, r, |k.q[r]|, s);
    var k1 := AllReady(k, r, |k.q[r]|);
    LeaversResched(k, k1.(sems := k1.sems[r := m]), s);
  }

  /** In any step: a process that leaves the queue of a semaphore runs or is ready, or is the one killed. */
  lemma ReleasedReady(k: Kernel, e: Event, s: int, p: int)
    requires Inv(k) && Enabled(k, e) && 0 <= s < |k.sems| && p in k.q[s] && e != Kill(p)
    ensures Sized(Step(k, e).0) && |Step(k, e).0.sems| == |k.sems| && (p !in Step(k, e).0.q[s] ==> Runnable(Step(k, e).0, p))
  {
    hide WaitStep, SignalStep, SignalnStep, SemcreateStep, SemdeleteStep, SemresetStep, SendStep, ReceiveStep, RecvtimeStep, RecvclrStep, SuspendStep, ResumeStep, Resched, SleepStep, KillStep, CreateStep, TickStep, FinishStep, BaseCore;
    if e.Signal? || e.Signaln? || e.Semdelete? || e.Semreset? {
      SemLeavers(k, e, s);
    } else {
      OthersWait(k, e, s, p);
    }
  }

  /** No other call releases anybody. */
  lemma OthersWait(k: Kernel, e: Event, s: int, p: int)
    requires Inv(k) && Enabled(k, e) && 0 <= s < |k.sems| && p in k.q[s] && e != Kill(p) && !e.Signal? && !e.Signaln? && !e.Semdelete? && !e.Semreset?
    ensures Sized(Step(k, e).0) && |Step(k, e).0.sems| == |k.sems| && p in Step(k, e).0.q[s]
  {
    hide WaitStep, SignalStep, SignalnStep, SemdeleteStep, SemresetStep, SendStep, ReceiveStep, RecvtimeStep, RecvclrStep, SuspendStep, ResumeStep, Resched, SleepStep, KillStep, CreateStep, TickStep, FinishStep, BaseCore;
    if e.Wait? {
      WaitWaits(k, e.s, s, -1);
    } else if e.Semcreate? {
      SemcreateIs(k, e.count);
    } else if e.Send? || e.Receive? || e.Recvtime? || e.Recvclr? {
      MailWaits(k, e, s, -1);
    } else if e.Suspend? || e.Resume? || e.Yield? || e.Sleepms? || e.Create? {
      ProcWaits(k, e, s, -1);
    } else if e.Kill? {
      KillWaits(k, e.pid, s, -1);
      OthersStay(k, e.pid, s, p);
    } else if e.Tick? {
      TickWaits(k, s, -1);
    } else {
      FinishWaits(k, s, -1);
    }
    assert k.q[s][0..] == k.q[s];
  }

  lemma OthersStay(k: Kernel, pid: int, s: int, p: int)
    requires Base(k) && 0 <= s < |k.sems| && p in k.q[s] && p != pid
    ensures p in Without(k.q[s], pid)
  {
    assert BaseSpelledOut(k);
    assert QueueOk(k, s);
    WithoutIs(k.q[s], pid);
  }

  // ---- messages

  /** send is refused exactly if there is no such process or its mailbox is full. Otherwise the message
      is in the mailbox, and a process that waits for one runs or is ready. */
  lemma SendIs(k: Kernel, p: int, msg: int)
    requires Inv(k)
    ensures var (k', r) := SendStep(k, p, msg);
      && (if Exists(k, p) && !k.procs[p].hasmsg then r == Ok else r == SysErr && k' == k)
      && (r == Ok ==> 0 <= p < |k'.procs| && k'.procs[p].hasmsg && k'.procs[p].msg == msg && (k.procs[p].state in {PrRecv, PrRectim} ==> Runnable(k', p)))
  {
    hide Place, InsertAt, KeyGiven, Without;
    SendOk(k, p, msg);
    if Exists(k, p) && !k.procs[p].hasmsg {
      SendBase(k, p, msg);
      var k1 := Delivered(k, p, msg);
      ReadySlice(k1, p);
      if k.procs[p].state == PrRecv {
        ReadyStays(MadeReady(k1, p), p);
        KeepsMail(MadeReady(k1, p), p);
      } else if k.procs[p].state == PrRectim {
        ReadyStays(MadeReady(Unslept(k1, p), p), p);
        KeepsMail(MadeReady(Unslept(k1, p), p), p);
      }
    }
  }

  lemma KeepsMail(k: Kernel, p: int)
    requires Sized(k) && 0 <= p < |k.procs|
    ensures |Resched(k).procs| == |k.procs| && Resched(k).procs[p].hasmsg == k.procs[p].hasmsg && Resched(k).procs[p].msg == k.procs[p].msg
  {
    hide Place, InsertAt, Without;
  }

  /** A call that takes a message takes the one that is there and empties the mailbox; with none there,
      receive and recvtime wait, unless the time is negative, and recvclr returns. */
  lemma ReceiveIs(k: Kernel, e: Event)
    requires Inv(k) && Enabled(k, e) && (e.Receive? || e.Recvtime? || e.Recvclr?)
    ensures var (k', r) := Step(k, e);
      if e.Recvtime? && e.maxwait < 0 then r == SysErr && k' == k
      else if k.procs[k.curr].hasmsg then r == Value(k.procs[k.curr].msg) && k'.curr == k.curr < |k'.procs| && !k'.procs[k.curr].hasmsg
      else if e.Recvclr? then r == Ok && k' == k
      else r == Switched && k.curr < |k'.procs| && !Runnable(k', k.curr) && k'.curr != k.curr && |k'.pend| == |k.pend| && k'.pend[k.curr] == if e.Receive? then InReceive else InRecvtime
  {
    hide Place, InsertAt, DeltaPlace, KeyAfter, Switch;
    if !k.procs[k.curr].hasmsg && !(e.Recvtime? && e.maxwait < 0) && !e.Recvclr? {
      if e.Receive? {
        ReceiveBase(k);
        SwitchAway(SetState(k.(pend := k.pend[k.curr := InReceive]), k.curr, PrRecv));
      } else {
        RecvtimeBase(k, e.maxwait);
        SwitchAway(Asleep(k.(pend := k.pend[k.curr := InRecvtime]), k.curr, e.maxwait, PrRectim));
      }
    }
  }

  /** A process that has stopped running is switched away from, and stays as it is. */
  lemma SwitchAway(k: Kernel)
    requires Base(k) && k.procs[k.curr].state !in {PrCurr, PrReady}
    ensures var k' := Resched(k);
      && |k'.procs| == |k.procs| && |k'.pend| == |k.pend| && 0 <= k'.curr < |k.procs| && k'.curr != k.curr && k'.procs[k.curr] == k.procs[k.curr] && k'.pend == k.pend
      && k'.procs[k'.curr].state == PrCurr
  {
    SwitchOk(k);
    assert BaseSpelledOut(k);
    Members(k);
  }

  // ---- processes

  /** suspend is refused exactly for the null process and for processes that neither run nor are ready.
      Otherwise the process is suspended, and another one runs if it was the current one. */
  lemma SuspendIs(k: Kernel, p: int)
    requires Inv(k)
    ensures var (k', r) := SuspendStep(k, p);
      if p != NULLPROC && Runnable(k, p) then r == Value(k.procs[p].prio) && p < |k'.procs| && k'.procs[p] == k.procs[p].(state := PrSusp) && k'.curr != p
      else r == SysErr && k' == k
  {
    hide Without, Switch;
    if p != NULLPROC && Runnable(k, p) {
      SuspendBase(k, p);
      assert BaseSpelledOut(k);
      assert PrioOk(k, p);
      if k.procs[p].state == PrCurr {
        SwitchAway(SetState(OffQueue(k, p), p, PrSusp));
      }
    }
  }

  /** resume is refused exactly for processes that are not suspended; otherwise the process runs or is
      ready. */
  lemma ResumeIs(k: Kernel, p: int)
    requires Inv(k)
    ensures var (k', r) := ResumeStep(k, p);
      if 0 <= p < |k.procs| && k.procs[p].state == PrSusp then r == Value(k.procs[p].prio) && Runnable(k', p)
      else r == SysErr && k' == k
  {
    hide Place, InsertAt, Without;
    if 0 <= p < |k.procs| && k.procs[p].state == PrSusp {
      ResumeBase(k, p);
      ReadyStays(MadeReady(k, p), p);
    }
  }

  /** kill is refused exactly for the null process and for processes that do not exist; otherwise the
      process exists no more, is on no queue, and does not run. */
  lemma KillIs(k: Kernel, p: int)
    requires Inv(k)
    ensures var (k', r) := KillStep(k, p);
      if p != NULLPROC && Exists(k, p) then
        && r == (if p == k.curr then Switched else Ok) && p < |k'.procs| && k'.procs[p].state == PrFree && k'.curr != p
        && forall i :: 0 <= i < |k'.q| ==> p !in k'.q[i]
      else r == SysErr && k' == k
  {
    hide Without, Switch, KeyGiven;
    KillOk(k, p);
    assert BaseSpelledOut(k);
    if p != NULLPROC && Exists(k, p) {
      assert PrioOk(k, p);
      if k.procs[p].state == PrCurr {
        KillCurrent(k, p);
        Processes.KillBase(k);
        SwitchAway(SetState(k, p, PrFree));
      }
      ExactlyOneQueue(KillStep(k, p).0, p);
    }
  }

  /** create is refused exactly for a priority below one; otherwise the process is suspended, with that
      priority and an empty mailbox. */
  lemma CreateIs(k: Kernel, p: int, prio: int)
    requires Inv(k) && Enabled(k, Create(p, prio))
    ensures var (k', r) := CreateStep(k, p, prio);
      if prio < 1 then r == SysErr && k' == k
      else r == Value(p) && |k'.procs| == |k.procs| && k'.procs[p].state == PrSusp && k'.procs[p].prio == prio && !k'.procs[p].hasmsg && k'.pend[p] == Nothing
           && k' == k.(procs := k.procs[p := k'.procs[p]], pend := k'.pend, log := k'.log)
  {
  }

  // ---- sleeping

  /** How many ticks there are in a run. */
  function TicksIn(es: seq<Event>): nat {
    if es == [] then 0 else (if es[0].Tick? then 1 else 0) + TicksIn(es[1..])
  }

  lemma {:induction false} TimePasses(k: Kernel, es: seq<Event>)
    requires Inv(k) && Legal(k, es)
    ensures Run(k, es).now == k.now + TicksIn(es)
    decreases |es|
  {
    hide Inv, Enabled, Step;
    if es != [] {
      StepKeeps(k, es[0]);
      NowAfter(k, es[0]);
      TimePasses(Step(k, es[0]).0, es[1..]);
    }
  }

  /** The caller sleeps, and its tick is the one that its delay leads to. */
  lemma CallerSleeps(k: Kernel, e: Event)
    requires Inv(k) && Enabled(k, e) && GoesToSleep(k, e)
    ensures var k' := Step(k, e).0; Sized(k') && k'.now == k.now && Sleeps(k', k.curr) && k'.wake[k.curr] == k.now + DelayOf(e)
  {
    hide DeltaPlace, InsertAt, KeyAfter, Resched, BaseCore;
    var c, d := k.curr, DelayOf(e);
    if e.Sleepms? {
      SleepBase(k, d);
      ReschedApart(Asleep(k, c, d, PrSleep), 0, c);
    } else {
      RecvtimeBase(k, d);
      ReschedApart(Asleep(k.(pend := k.pend[c := InRecvtime]), c, d, PrRectim), 0, c);
    }
  }

  /** Over every run: a process that asks to wait for d ticks, with 0 < d < 2^31, and is not killed or
      sent the message it waits for, sleeps through the d - 1 ticks that follow and wakes with the next,
      whatever else goes on. */
  lemma SleepsFor(k: Kernel, e: Event, es: seq<Event>)
    requires Inv(k) && OnTime(k) && Enabled(k, e) && GoodDelay(e) && GoesToSleep(k, e)
    requires Legal(Step(k, e).0, es) && Undisturbed(Step(k, e).0, es, k.curr) && (forall i :: 0 <= i < |es| ==> GoodDelay(es[i])) && TicksIn(es) < DelayOf(e)
    ensures var k' := Run(Step(k, e).0, es);
      Inv(k') && Sleeps(k', k.curr) && (Enabled(k', Tick) ==> if TicksIn(es) + 1 < DelayOf(e) then Sleeps(Step(k', Tick).0, k.curr) else Runnable(Step(k', Tick).0, k.curr))
  {
    hide Enabled, Step, BaseCore, Top, OnTime;
    var k1 := Step(k, e).0;
    StepOnTime(k, e);
    CallerSleeps(k, e);
    TimePasses(k1, es);
    WakesOnItsTick(k1, es, k.curr);
    if Enabled(Run(k1, es), Tick) {
      SleeperStep(Run(k1, es), Tick, k.curr);
    }
  }
}
