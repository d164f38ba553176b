/** What a semaphore's count means: it is conserved over every run of calls and ticks. */
module ProcessSemaphores {
  import opened DistinctLists
  import opened ProcessSpec
  import opened ProcessSteps
  import opened ProcessCalls
  import opened ProcessKeeps
  import opened ProcessClock
  import opened ProcessRuns
  import Processes

  /** The process waits for semaphore s. */
  predicate WaitsFor(k: Kernel, p: int, s: int) { 0 <= p < |k.procs| && k.procs[p].state == PrWait && k.procs[p].sem == s }

  /** The balance of semaphore s after a call, from what the call asked for and what it answered: a
      new count, or one for every signal, or minus one for a wait, or plus one for a waiter killed. */
  function BalanceAfter(k: Kernel, e: Event, s: int, n: int): int
    requires Sized(k) && Enabled(k, e)
  {
    var r := Step(k, e).1;
    match e
    case Semcreate(count) => if r == Value(s) then count else n
    case Semreset(t, count) => if t == s && r == Ok then count else n
    case Wait(t) => if t == s && r in {Ok, Switched} then n - 1 else n
    case Signal(t) => if t == s && r == Ok then n + 1 else n
    case Signaln(t, count) => if t == s && r == Ok then n + count else n
    case Kill(p) => if WaitsFor(k, p, s) && r == Ok then n + 1 else n
    case _ => n
  }

  /** The balance after a run that began with n. */
  function Balance(k: Kernel, es: seq<Event>, s: int, n: int): int
    requires Legal(k, es)
    decreases |es|
  {
    if es == [] then n else Balance(Step(k, es[0]).0, es[1..], s, BalanceAfter(k, es[0], s, n))
  }

  /** No call of the run deletes the semaphore. */
  ghost predicate Survives(k: Kernel, es: seq<Event>, s: int)
    requires Legal(k, es)
    decreases |es|
  {
    es == [] || (!(es[0] == Semdelete(s) && Step(k, es[0]).1 == Ok) && Survives(Step(k, es[0]).0, es[1..], s))
  }

  // ---- what leaves semaphores alone

  lemma ReschedSems(k: Kernel)
    requires Sized(k)
    ensures Resched(k).sems == k.sems
  {
  }

  lemma SignalledCount(k: Kernel, s: int)
    requires Sized(k) && 0 <= s < |k.sems|
    ensures Signalled(k, s).sems == k.sems[s := k.sems[s].(count := k.sems[s].count + 1)]
  {
  }

  lemma {:induction false} SignalledTimesCount(k: Kernel, s: int, n: nat)
    requires Sized(k) && 0 <= s < |k.sems|
    ensures SignalledTimes(k, s, n).sems == k.sems[s := k.sems[s].(count := k.sems[s].count + n)]
  {
    hide Signalled;
    if n > 0 {
      SignalledTimesCount(k, s, n - 1);
      SignalledCount(SignalledTimes(k, s, n - 1), s);
    }
  }

  lemma {:induction false} AllReadySems(k: Kernel, s: int, n: nat)
    requires Sized(k) && 0 <= s < |k.sems|
    ensures AllReady(k, s, n).sems == k.sems
  {
    if n > 0 {
      AllReadySems(k, s, n - 1);
    }
  }

  lemma {:induction false} WokenTimesSems(k: Kernel, n: nat)
    requires Sized(k)
    ensures WokenTimes(k, n).sems == k.sems
  {
    if n > 0 {
      WokenTimesSems(k, n - 1);
    }
  }

  lemma SlicedSems(k: Kernel)
    requires Sized(k)
    ensures Sliced(k).sems == k.sems
  {
    ReschedSems(k.(preempt := QUANTUM));
  }

  lemma TickSems(k: Kernel)
    requires Sized(k)
    ensures TickStep(k).0.sems == k.sems
  {
    hide Resched, Sliced, MadeReady;
    var k1 := Ticked(k);
    WokenTimesSems(Counted(k), Due(k.q[SleepQ(k)], Counted(k).key));
    ReschedSems(k1);
    ReschedSized(k1);
    SlicedSems(k1);
    if Resched(k1).curr == k1.curr {
      assert Resched(k1).(curr := k1.curr) == Resched(k1);
      SlicedSems(Resched(k1));
    }
  }

  // ---- one step

  lemma SemCalls(k: Kernel, e: Event, s: int)
    requires Sized(k) && Enabled(k, e) && (e.Wait? || e.Signal? || e.Signaln? || e.Semcreate? || e.Semdelete? || e.Semreset?)
    requires 0 <= s < |k.sems| && k.sems[s].used && !(e == Semdelete(s) && Step(k, e).1 == Ok)
    ensures |Step(k, e).0.sems| == |k.sems| && Step(k, e).0.sems[s] == k.sems[s].(count := BalanceAfter(k, e, s, k.sems[s].count))
  {
    hide Resched, MadeReady, Signalled, FindSem;
    match e
    case Wait(t) =>
      if !BadSem(k, t) {
        var c, k1 := k.curr, Count(k, t, k.sems[t].count - 1);
        ReschedSems(k1.(procs := k.procs[c := k.procs[c].(state := PrWait, sem := t)], q := k.q[t := k.q[t] + [c]]));
      }
    case Signal(t) =>
      if !BadSem(k, t) {
        SignalledCount(k, t);
        SignalledTimesCount(k, t, 1);
        ReschedSems(SignalledTimes(k, t, 1));
        assert SignalledTimes(k, t, 1) == Signalled(SignalledTimes(k, t, 0), t);
      }
    case Signaln(t, count) =>
      if !BadSem(k, t) && count >= 0 {
        SignalledTimesCount(k, t, count);
        ReschedSems(SignalledTimes(k, t, count));
      }
    case Semcreate(_) =>
    case Semdelete(t) =>
      if !BadSem(k, t) {
        AllReadySems(k, t, |k.q[t]|);
        var k1 := AllReady(k, t, |k.q[t]|);
        ReschedSems(k1.(sems := k1.sems[t := Sem(false, if k.sems[t].count < 0 then 1 else k.sems[t].count + 1)]));
      }
    case Semreset(t, count) =>
      if count >= 0 && !BadSem(k, t) {
        AllReadySems(k, t, |k.q[t]|);
        ReschedSems(Count(AllReady(k, t, |k.q[t]|), t, count));
      }
  }

  lemma MailSems(k: Kernel, e: Event)
    requires Sized(k) && Enabled(k, e) && (e.Send? || e.Receive? || e.Recvtime? || e.Recvclr? || e.Finish?)
    ensures Step(k, e).0.sems == k.sems
  {
    hide Place, InsertAt, Without, DeltaPlace, KeyAfter, KeyGiven;
  }

  lemma KillSems(k: Kernel, p: int, s: int)
    requires Sized(k) && 0 <= s < |k.sems|
    ensures |KillStep(k, p).0.sems| == |k.sems|
    ensures KillStep(k, p).0.sems[s] == if KillStep(k, p).1 == Ok && WaitsFor(k, p, s) then k.sems[s].(count := k.sems[s].count + 1) else k.sems[s]
  {
    hide Place, InsertAt, Without, KeyGiven;
  }

  lemma OtherSems(k: Kernel, e: Event)
    requires Sized(k) && Enabled(k, e) && (e.Suspend? || e.Resume? || e.Yield? || e.Sleepms? || e.Create?)
    ensures Step(k, e).0.sems == k.sems
  {
    hide Place, InsertAt, Without, DeltaPlace, KeyAfter;
  }

  /** No call and no tick changes the count but as the balance says. */
  lemma StepBalance(k: Kernel, e: Event, s: int)
    requires Sized(k) && Enabled(k, e) && 0 <= s < |k.sems| && k.sems[s].used && !(e == Semdelete(s) && Step(k, e).1 == Ok)
    ensures |Step(k, e).0.sems| == |k.sems| && Step(k, e).0.sems[s] == Sem(true, BalanceAfter(k, e, s, k.sems[s].count))
  {
    hide SendStep, ReceiveStep, RecvtimeStep, RecvclrStep, SuspendStep, ResumeStep, SleepStep, KillStep, CreateStep, TickStep, FinishStep, WaitStep, SignalStep, SignalnStep, SemcreateStep, SemdeleteStep, SemresetStep, Resched;
    if e.Wait? || e.Signal? || e.Signaln? || e.Semcreate? || e.Semdelete? || e.Semreset? {
      SemCalls(k, e, s);
    } else if e.Tick? {
      TickSems(k);
    } else if e.Kill? {
      KillSems(k, e.pid, s);
    } else if e.Send? || e.Receive? || e.Recvtime? || e.Recvclr? || e.Finish? {
      MailSems(k, e);
    } else {
      OtherSems(k, e);
    }
  }

  // ---- runs

  /** Over every run in which it is not deleted, a semaphore's count is what it was, or was last set
      to, plus the signals, minus the waits, plus the waiters that were killed. */
  lemma {:induction false} Conserved(k: Kernel, es: seq<Event>, s: int)
    requires Inv(k) && Legal(k, es) && 0 <= s < |k.sems| && k.sems[s].used && Survives(k, es, s)
    ensures Inv(Run(k, es)) && |Run(k, es).sems| == |k.sems| && Run(k, es).sems[s] == Sem(true, Balance(k, es, s, k.sems[s].count))
    decreases |es|
  {
    hide Inv, BalanceAfter, Enabled, Step;
    if es != [] {
      StepKeeps(k, es[0]);
      StepBalance(k, es[0], s);
      Conserved(Step(k, es[0]).0, es[1..], s);
    }
  }

  /** A wait blocks exactly if the balance is not positive, and else goes on at once. */
  lemma WaitBlocks(k: Kernel, es: seq<Event>, s: int)
    requires Inv(k) && Legal(k, es) && 0 <= s < |k.sems| && k.sems[s].used && Survives(k, es, s)
    requires Sized(Run(k, es)) && Enabled(Run(k, es), Wait(s))
    ensures Step(Run(k, es), Wait(s)).1 == if Balance(k, es, s, k.sems[s].count) > 0 then Ok else Switched
  {
    Conserved(k, es, s);
  }

  /** A semaphore that semcreate has just made starts with the count asked for. */
  lemma FromCreation(k: Kernel, count: int, s: int, es: seq<Event>)
    requires Inv(k) && Enabled(k, Semcreate(count)) && Step(k, Semcreate(count)).1 == Value(s)
    requires Legal(Step(k, Semcreate(count)).0, es) && Survives(Step(k, Semcreate(count)).0, es, s)
    ensures var k1 := Step(k, Semcreate(count)).0;
      0 <= s < |k1.sems| == |Run(k1, es).sems| && Run(k1, es).sems[s] == Sem(true, Balance(k1, es, s, count))
  {
    StepKeeps(k, Semcreate(count));
    Conserved(Step(k, Semcreate(count)).0, es, s);
  }

  // ---- who holds what

  /** Of a run: the waits accepted, the signals accepted, and the waiters killed. */
  datatype Tally = Tally(waits: int, signals: int, killed: int)

  function TallyAfter(k: Kernel, e: Event, s: int, t: Tally): Tally
    requires Sized(k) && Enabled(k, e)
  {
    var r := Step(k, e).1;
    match e
    case Wait(u) => if u == s && r in {Ok, Switched} then t.(waits := t.waits + 1) else t
    case Signal(u) => if u == s && r == Ok then t.(signals := t.signals + 1) else t
    case Signaln(u, count) => if u == s && r == Ok then t.(signals := t.signals + count) else t
    case Kill(p) => if WaitsFor(k, p, s) && r == Ok then t.(killed := t.killed + 1) else t
    case _ => t
  }

  function Tallied(k: Kernel, es: seq<Event>, s: int, t: Tally): Tally
    requires Legal(k, es)
    decreases |es|
  {
    if es == [] then t else Tallied(Step(k, es[0]).0, es[1..], s, TallyAfter(k, es[0], s, t))
  }

  /** No call of the run gives the semaphore a new count. */
  ghost predicate Unreset(k: Kernel, es: seq<Event>, s: int)
    requires Legal(k, es)
    decreases |es|
  {
    es == [] || (!(es[0].Semreset? && es[0].s == s && Step(k, es[0]).1 == Ok) && Unreset(Step(k, es[0]).0, es[1..], s))
  }

  lemma {:induction false} BalanceIs(k: Kernel, es: seq<Event>, s: int, n: int, t: Tally)
    requires Inv(k) && Legal(k, es) && 0 <= s < |k.sems| && k.sems[s].used && Survives(k, es, s) && Unreset(k, es, s)
    ensures var t' := Tallied(k, es, s, t); Balance(k, es, s, n + t.signals - t.waits + t.killed) == n + t'.signals - t'.waits + t'.killed
    decreases |es|
  {
    hide Inv, Step, Enabled;
    if es != [] {
      StepKeeps(k, es[0]);
      StepBalance(k, es[0], s);
      NotUnused(k, es[0], s);
      BalanceIs(Step(k, es[0]).0, es[1..], s, n, TallyAfter(k, es[0], s, t));
    }
  }

  /** semcreate never returns a semaphore that is in use. */
  lemma NotUnused(k: Kernel, e: Event, s: int)
    requires Sized(k) && Enabled(k, e) && 0 <= s < |k.sems| && k.sems[s].used
    ensures e.Semcreate? ==> Step(k, e).1 != Value(s)
  {
  }

  /** A semaphore made with a count of n lets n processes through, and one more for every signal: those
      whose wait has been granted are never more, and just as many as soon as anybody waits. */
  lemma Exclusion(k: Kernel, count: int, s: int, es: seq<Event>)
    requires Inv(k) && Enabled(k, Semcreate(count)) && Step(k, Semcreate(count)).1 == Value(s)
    requires Legal(Step(k, Semcreate(count)).0, es) && Survives(Step(k, Semcreate(count)).0, es, s) && Unreset(Step(k, Semcreate(count)).0, es, s)
    ensures var k1 := Step(k, Semcreate(count)).0;
      var (t, k') := (Tallied(k1, es, s, Tally(0, 0, 0)), Run(k1, es));
      0 <= s < |k'.sems| && Sized(k') &&
      var granted := t.waits - t.killed - |k'.q[s]|;
      granted <= count + t.signals && (k'.q[s] != [] ==> granted == count + t.signals)
  {
    var k1 := Step(k, Semcreate(count)).0;
    StepKeeps(k, Semcreate(count));
    FromCreation(k, count, s, es);
    RunInv(k1, es);
    BalanceIs(k1, es, s, count, Tally(0, 0, 0));
    assert BaseSpelledOut(Run(k1, es));
    assert SemOk(Run(k1, es), s);
  }
}
