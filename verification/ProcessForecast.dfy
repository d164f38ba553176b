/** When sleepers are woken, whatever their keys: also for delays that the code takes for negative
    ones, with the keys' wrap-around in 32 bits. */
module ProcessForecast {
  import opened DistinctLists
  import opened ProcessSpec
  import opened ProcessSteps
  import opened ProcessCalls
  import opened ProcessKeeps
  import opened ProcessClock
  import opened ProcessRuns
  import Processes

  // ---- keys

  /** Keys and priorities are in the range of their types. */
  ghost predicate KeysOk(k: Kernel) {
    && |k.key| == |k.procs|
    && (forall p {:trigger k.key[p]} :: 0 <= p < |k.key| ==> InInt32(k.key[p]))
    && (forall p {:trigger k.procs[p]} :: 0 <= p < |k.procs| ==> 0 <= k.procs[p].prio < 0x8000)
  }

  lemma ReschedKeys(k: Kernel)
    requires Sized(k) && KeysOk(k)
    ensures KeysOk(Resched(k))
  {
  }

  lemma ReadyKeys(k: Kernel, pid: int)
    requires Sized(k) && KeysOk(k) && 0 <= pid < |k.procs|
    ensures KeysOk(MadeReady(k, pid))
  {
    hide Place, InsertAt, Without;
  }

  lemma OneKeys(k: Kernel, s: int)
    requires Sized(k) && KeysOk(k)
    ensures 0 <= s < |k.sems| ==> KeysOk(Signalled(k, s)) && (k.q[s] != [] && 0 <= k.q[s][0] < |k.procs| ==> KeysOk(MadeReady(k, k.q[s][0])))
    ensures KeysOk(Woken(k))
  {
    hide MadeReady;
    if 0 <= s < |k.sems| && k.q[s] != [] && 0 <= k.q[s][0] < |k.procs| {
      ReadyKeys(k, k.q[s][0]);
      ReadyKeys(Count(k, s, k.sems[s].count + 1), k.q[s][0]);
    }
    if k.q[SleepQ(k)] != [] && 0 <= k.q[SleepQ(k)][0] < |k.procs| {
      ReadyKeys(k, k.q[SleepQ(k)][0]);
    }
  }

  lemma {:induction false} LoopKeys(k: Kernel, s: int, n: nat)
    requires Sized(k) && KeysOk(k)
    ensures 0 <= s < |k.sems| ==> KeysOk(SignalledTimes(k, s, n)) && KeysOk(AllReady(k, s, n))
    ensures KeysOk(WokenTimes(k, n))
  {
    hide KeysOk, MadeReady, Signalled, Woken;
    if n > 0 {
      LoopKeys(k, s, n - 1);
      if 0 <= s < |k.sems| {
        OneKeys(SignalledTimes(k, s, n - 1), s);
        OneKeys(AllReady(k, s, n - 1), s);
      }
      OneKeys(WokenTimes(k, n - 1), s);
    }
  }

  lemma {:induction false} RestInt32(l: seq<int>, key: seq<int>, d: int)
    requires (forall p :: 0 <= p < |key| ==> InInt32(key[p])) && InInt32(d)
    ensures InInt32(DeltaPlace(l, key, d).1)
  {
    if l != [] && 0 <= l[0] < |key| && key[l[0]] <= d {
      RestInt32(l[1..], key, Int32(d - key[l[0]]));
    }
  }

  lemma AsleepKeys(k: Kernel, pid: int, d: int, state: PrState)
    requires Sized(k) && KeysOk(k) && 0 <= pid < |k.procs| && InInt32(d)
    ensures KeysOk(Asleep(k, pid, d, state))
  {
    RestInt32(k.q[SleepQ(k)], k.key, d);
  }

  lemma SleepKeys(k: Kernel, k1: Kernel, d: int, state: PrState)
    requires Sized(k) && Sized(k1) && KeysOk(k) && k1 == k.(pend := k1.pend) && InInt32(d)
    ensures KeysOk(Resched(k)) && KeysOk(Resched(Asleep(k1, k1.curr, d, state)))
  {
    hide Resched;
    ReschedKeys(k);
    AsleepKeys(k1, k1.curr, d, state);
    ReschedKeys(Asleep(k1, k1.curr, d, state));
  }

  lemma ClearKeys(k: Kernel, s: int, m: Sem)
    requires Sized(k) && KeysOk(k) && 0 <= s < |k.sems|
    ensures var k1 := AllReady(k, s, |k.q[s]|); var k2 := k1.(sems := k1.sems[s := m]); KeysOk(k2) && KeysOk(Resched(k2))
  {
    LoopKeys(k, s, |k.q[s]|);
    var k1 := AllReady(k, s, |k.q[s]|);
    ReschedKeys(k1.(sems := k1.sems[s := m]));
  }

  lemma WaitKeys(k: Kernel, s: int)
    requires Sized(k) && KeysOk(k)
    ensures KeysOk(WaitStep(k, s).0)
  {
    hide Resched;
    if !BadSem(k, s) {
      var k1 := Count(k, s, k.sems[s].count - 1);
      ReschedKeys(k1.(procs := k.procs[k.curr := k.procs[k.curr].(state := PrWait, sem := s)], q := k.q[s := k.q[s] + [k.curr]]));
    }
  }

  lemma SignalledOnce(k: Kernel, s: int)
    requires Sized(k) && 0 <= s < |k.sems|
    ensures SignalledTimes(k, s, 1) == Signalled(k, s)
  {
    assert SignalledTimes(k, s, 0) == k;
  }

  lemma SemKeys(k: Kernel, e: Event)
    requires Sized(k) && Enabled(k, e) && KeysOk(k) && (e.Wait? || e.Signal? || e.Signaln? || e.Semcreate? || e.Semdelete? || e.Semreset?)
    ensures KeysOk(Step(k, e).0)
  {
    hide Resched, MadeReady, AllReady, SignalledTimes;
    match e
    case Wait(s) =>
      if !BadSem(k, s) {
        WaitKeys(k, s);
      }
    case Signal(s) =>
      if !BadSem(k, s) {
        LoopKeys(k, s, 1);
        SignalledOnce(k, s);
        ReschedKeys(Signalled(k, s));
      }
    case Signaln(s, count) =>
      if !BadSem(k, s) && count >= 0 {
        LoopKeys(k, s, count);
        ReschedKeys(SignalledTimes(k, s, count));
      }
    case Semdelete(s) =>
      if !BadSem(k, s) {
        ClearKeys(k, s, Sem(false, if k.sems[s].count < 0 then 1 else k.sems[s].count + 1));
      }
    case Semreset(s, count) =>
      if !BadSem(k, s) {
        ClearKeys(k, s, AllReady(k, s, |k.q[s]|).sems[s].(count := count));
      }
    case _ =>
  }

  lemma TickedKeys(k: Kernel)
    requires Sized(k) && KeysOk(k)
    ensures KeysOk(Ticked(k))
  {
    hide WokenTimes, Due;
    var k2 := Counted(k);
    LoopKeys(k2, 0, Due(k.q[SleepQ(k)], k2.key));
  }

  lemma TickKeys(k: Kernel)
    requires Sized(k) && KeysOk(k)
    ensures KeysOk(TickStep(k).0)
  {
    hide Ticked, Resched, Sliced;
    TickedKeys(k);
    ReschedSized(Ticked(k));
    ReschedKeys(Ticked(k));
    SlicedKeys(Ticked(k));
    if Resched(Ticked(k)).curr == k.curr {
      SlicedKeys(Resched(Ticked(k)));
    }
  }

  lemma SlicedKeys(k: Kernel)
    requires Sized(k) && KeysOk(k)
    ensures KeysOk(Sliced(k))
  {
    ReschedKeys(k.(preempt := QUANTUM));
  }

  lemma SendKeys(k: Kernel, pid: int, msg: int)
    requires Sized(k) && KeysOk(k)
    ensures KeysOk(SendStep(k, pid, msg).0)
  {
    hide Resched;
    if !BadPid(k, pid) && !k.procs[pid].hasmsg {
      var k1 := Delivered(k, pid, msg);
      ReschedKeys(MadeReady(k1, pid));
      ReschedKeys(MadeReady(Unslept(k1, pid), pid));
    }
  }

  lemma MoveKeys(k: Kernel, pid: int)
    requires Sized(k) && KeysOk(k)
    ensures KeysOk(SuspendStep(k, pid).0) && KeysOk(ResumeStep(k, pid).0) && KeysOk(KillStep(k, pid).0)
  {
    hide Resched;
    if !BadPid(k, pid) {
      ReschedKeys(SetState(k, pid, PrSusp));
      ReschedKeys(MadeReady(k, pid));
      ReschedKeys(SetState(k, pid, PrFree));
      assert KeysOk(Unslept(k, pid));
    }
  }

  /** No step computes a key or a priority that leaves its range. */
  lemma StepKeys(k: Kernel, e: Event)
    requires Sized(k) && Enabled(k, e) && KeysOk(k)
    ensures KeysOk(Step(k, e).0)
  {
    hide Resched, MadeReady, Ticked, Sliced, Unslept, Signalled, SendStep, SuspendStep, ResumeStep, KillStep, TickStep;
    match e
    case Sleepms(delay) => SleepKeys(k, k, Int32(delay), PrSleep);
    case Recvtime(maxwait) => SleepKeys(k, k.(pend := k.pend[k.curr := InRecvtime]), maxwait, PrRectim);
    case Tick => TickKeys(k);
    case Finish => SlicedKeys(k.(pend := k.pend[k.curr := Nothing]));
    case Send(pid, msg) => SendKeys(k, pid, msg);
    case Suspend(pid) => MoveKeys(k, pid);
    case Resume(pid) => MoveKeys(k, pid);
    case Kill(pid) => MoveKeys(k, pid);
    case Receive => ReschedKeys(SetState(k.(pend := k.pend[k.curr := InReceive]), k.curr, PrRecv));
    case Recvclr =>
    case Yield => ReschedKeys(k);
    case Create(_, _) =>
    case _ => SemKeys(k, e);
  }

  /** In every reachable state each key is a 32-bit number and each priority a 16-bit one: what the
      steps compute with wrap-around never leaves its range. */
  lemma {:induction false} RunKeys(k: Kernel, es: seq<Event>)
    requires Inv(k) && KeysOk(k) && Legal(k, es)
    ensures KeysOk(Run(k, es)) && Inv(Run(k, es))
    decreases |es|
  {
    if es != [] {
      StepKeeps(k, es[0]);
      StepKeys(k, es[0]);
      RunKeys(Step(k, es[0]).0, es[1..]);
    }
  }

  /** So it is in every run from the start. */
  lemma BootKeys(nproc: nat, nsem: nat, es: seq<Event>)
    requires nproc > 0 && nsem > 0 && Legal(Processes.Boot(nproc, nsem), es)
    ensures KeysOk(Run(Processes.Boot(nproc, nsem), es))
  {
    Processes.BootInv(nproc, nsem);
    RunKeys(Processes.Boot(nproc, nsem), es);
  }

  // ---- forecasts

  /** At tick t, when a first key counts down to zero. The count takes the least key to the greatest. */
  function FirstTick(key: int, t: int): int {
    if key == -0x8000_0000 then t + 0x8000_0000 else if key < 1 then t + 1 else t + key
  }

  /** When those behind the one woken at tick w are woken: a key that is not positive waits for nothing. */
  function Following(l: seq<int>, key: seq<int>, w: int): (r: seq<int>)
    ensures |r| == |l|
  {
    if l == [] then []
    else
      var v := if 0 <= l[0] < |key| && key[l[0]] > 0 then w + key[l[0]] else w;
      [v] + Following(l[1..], key, v)
  }

  /** The ticks at which the clock will wake the sleepers of a list, if nothing else happens. */
  function Forecast(l: seq<int>, key: seq<int>, t: int): seq<int> {
    if l == [] || !(0 <= l[0] < |key|) then []
    else
      var w := FirstTick(key[l[0]], t);
      [w] + Following(l[1..], key, w)
  }

  lemma {:induction false} FollowingAtLeast(l: seq<int>, key: seq<int>, w: int)
    ensures forall a :: 0 <= a < |l| ==> Following(l, key, w)[a] >= w
    ensures l != [] && 0 <= l[0] < |key| && key[l[0]] > 0 ==> forall a :: 0 <= a < |l| ==> Following(l, key, w)[a] > w
  {
    if l != [] {
      var v := if 0 <= l[0] < |key| && key[l[0]] > 0 then w + key[l[0]] else w;
      FollowingAtLeast(l[1..], key, v);
      assert Following(l, key, w) == [v] + Following(l[1..], key, v);
    }
  }

  lemma {:induction false} FollowingFrame(l: seq<int>, key: seq<int>, key': seq<int>, w: int)
    requires |key| == |key'| && forall a :: 0 <= a < |l| && 0 <= l[a] < |key| ==> key'[l[a]] == key[l[a]]
    ensures Following(l, key', w) == Following(l, key, w)
  {
    if l != [] {
      var v := if 0 <= l[0] < |key| && key[l[0]] > 0 then w + key[l[0]] else w;
      forall a | 0 <= a < |l[1..]| && 0 <= l[1..][a] < |key|
        ensures key'[l[1..][a]] == key[l[1..][a]]
      {
        assert l[1..][a] == l[a + 1];
      }
      FollowingFrame(l[1..], key, key', v);
    }
  }

  /** Those that are due behind the one woken at tick w are woken at w, and the others later. */
  lemma {:induction false} FollowingDue(l: seq<int>, key: seq<int>, w: int)
    requires forall a :: 0 <= a < |l| ==> 0 <= l[a] < |key|
    ensures var n, f := Due(l, key), Following(l, key, w);
      && (forall a :: 0 <= a < |l| ==> if a < n then f[a] == w else f[a] > w)
      && f[n..] == Forecast(l[n..], key, w)
  {
    var n, f := Due(l, key), Following(l, key, w);
    FollowingAtLeast(l, key, w);
    if n == 0 {
      assert f[0..] == f && l[0..] == l;
    } else {
      var u := l[1..];
      FollowingDue(u, key, w);
      assert f == [w] + Following(u, key, w);
      assert l[n..] == u[n - 1..] && f[n..] == Following(u, key, w)[n - 1..];
    }
  }

  lemma DropFirst(x: int, s: seq<int>, n: nat)
    requires 0 < n <= |s| + 1
    ensures ([x] + s)[n..] == s[n - 1..]
  {
  }

  /** Those behind the first are the same after the count. */
  lemma CountRest(l: seq<int>, key: seq<int>, key': seq<int>, w: int)
    requires l != [] && Distinct(l) && 0 <= l[0] < |key| && key' == key[l[0] := Int32(key[l[0]] - 1)]
    ensures Following(l[1..], key', w) == Following(l[1..], key, w)
  {
    forall a | 0 <= a < |l[1..]|
      ensures l[1..][a] != l[0]
    {
      assert l[1..][a] == l[a + 1];
    }
    FollowingFrame(l[1..], key, key', w);
  }

  /** The list before and after the count: how many are due, and what is forecast for the rest. */
  lemma CountForecast(l: seq<int>, key: seq<int>, key': seq<int>, t: int)
    requires l != [] && Distinct(l) && forall a :: 0 <= a < |l| ==> 0 <= l[a] < |key| && InInt32(key[l[a]])
    requires key' == key[l[0] := Int32(key[l[0]] - 1)]
    ensures var f, n := Forecast(l, key, t), Due(l, key');
      && |f| == |l| && (forall a :: 0 <= a < |l| ==> if a < n then f[a] == t + 1 else f[a] > t + 1)
      && Forecast(l[n..], key', t + 1) == f[n..]
  {
    var u, w, n := l[1..], FirstTick(key[l[0]], t), Due(l, key');
    CountRest(l, key, key', w);
    assert l == [l[0]] + u;
    if n == 0 {
      FollowingAtLeast(u, key, w);
      assert l[0..] == l;
      assert Forecast(l, key, t)[0..] == Forecast(l, key, t);
    } else {
      FollowingDue(u, key', w) by {
        assert forall a :: 0 <= a < |u| ==> u[a] == l[a + 1];
      }
      DropFirst(l[0], u, n);
      DropFirst(w, Following(u, key, w), n);
    }
  }

  /** A forecast depends on the keys of the list alone. */
  lemma ForecastFrame(l: seq<int>, key: seq<int>, key': seq<int>, t: int)
    requires |key| == |key'| && forall a :: 0 <= a < |l| && 0 <= l[a] < |key| ==> key'[l[a]] == key[l[a]]
    ensures Forecast(l, key', t) == Forecast(l, key, t)
  {
    if l != [] && 0 <= l[0] < |key| {
      FollowingFrame(l[1..], key, key', FirstTick(key[l[0]], t)) by {
        assert forall a :: 0 <= a < |l[1..]| ==> l[1..][a] == l[a + 1];
      }
    }
  }

  lemma ListOk(k: Kernel)
    requires Inv(k)
    ensures var l := k.q[SleepQ(k)]; Distinct(l) && forall a :: 0 <= a < |l| ==> 0 <= l[a] < |k.key| == |k.procs|
  {
    assert BaseSpelledOut(k);
    assert QueueOk(k, SleepQ(k));
  }

  /** The tick up to where the first n sleepers are woken. */
  lemma CountedForecast(k: Kernel) returns (n: nat)
    requires Inv(k) && KeysOk(k)
    ensures Sized(k) && Sized(Counted(k)) && |Counted(k).sems| == |k.sems|
    ensures var l, k2 := k.q[SleepQ(k)], Counted(k);
      var f := Forecast(l, k.key, k.now);
      && n <= |l| == |f| && (forall a :: 0 <= a < |l| ==> if a < n then f[a] == k.now + 1 else f[a] > k.now + 1)
      && Forecast(l[n..], k2.key, k.now + 1) == f[n..] && Base(k2) && Ticked(k) == WokenTimes(k2, n) && Distinct(l)
  {
    var l, k2 := k.q[SleepQ(k)], Counted(k);
    ListOk(k);
    if l == [] {
      n := 0;
      CountedSame(k);
    } else {
      CountedBase(k);
      hide Base, Inv, Forecast, Due, InInt32, Int32;
      CountForecast(l, k.key, k2.key, k.now);
      n := Due(l, k2.key);
    }
  }

  /** Every forecast comes true: a tick wakes exactly those for whom it was forecast, the first n of
      the list, and leaves all other forecasts as they were. */
  lemma TickForecast(k: Kernel) returns (n: nat)
    requires Inv(k) && KeysOk(k)
    ensures var l, k' := k.q[SleepQ(k)], Ticked(k);
      var f := Forecast(l, k.key, k.now);
      && n <= |l| == |f| && (forall a :: 0 <= a < |l| ==> if a < n then f[a] == k.now + 1 else f[a] > k.now + 1)
      && k'.q[SleepQ(k)] == l[n..] && k'.now == k.now + 1 && Forecast(l[n..], k'.key, k'.now) == f[n..]
      && |k'.procs| == |k.procs|
      && (forall p :: 0 <= p < |k.procs| ==> if p in l[..n] then k'.procs[p].state == PrReady else k'.procs[p] == k.procs[p])
  {
    hide Ticked, WokenTimes, Forecast, Base, Inv;
    n := CountedForecast(k);
    var l, k2 := k.q[SleepQ(k)], Counted(k);
    WokenTimesAre(k2, n);
    NotInPrefix(l, n);
    ForecastFrame(l[n..], k2.key, Ticked(k).key, k.now + 1);
  }

  // ---- delays of every kind

  function WakeTicks(l: seq<int>, wake: seq<int>, by': int): seq<int> {
    seq(|l|, a requires 0 <= a < |l| => if 0 <= l[a] < |wake| then wake[l[a]] + by' else by')
  }

  lemma WakeTicksCons(l: seq<int>, wake: seq<int>, b: int)
    requires l != [] && 0 <= l[0] < |wake|
    ensures WakeTicks(l, wake, b) == [wake[l[0]] + b] + WakeTicks(l[1..], wake, b)
  {
    var r := [wake[l[0]] + b] + WakeTicks(l[1..], wake, b);
    forall a | 0 <= a < |l|
      ensures WakeTicks(l, wake, b)[a] == r[a]
    {
      assert a > 0 ==> l[1..][a - 1] == l[a];
    }
  }

  lemma {:induction false} FollowingDelta(l: seq<int>, key: seq<int>, wake: seq<int>, t: int, b: int)
    requires Delta(l, key, wake, t)
    ensures Following(l, key, t + b) == WakeTicks(l, wake, b)
  {
    if l != [] {
      FollowingDelta(l[1..], key, wake, wake[l[0]], b);
      WakeTicksCons(l, wake, b);
    }
  }

  /** Sleepers that are on time are woken at their wake-up ticks. */
  lemma OnTimeForecast(k: Kernel)
    requires Sized(k) && OnTime(k)
    ensures Forecast(k.q[SleepQ(k)], k.key, k.now) == WakeTicks(k.q[SleepQ(k)], k.wake, 0)
  {
    FollowingDelta(k.q[SleepQ(k)], k.key, k.wake, k.now, 0);
  }

  /** By how much the others are late, or early, when somebody goes to sleep for d ticks in front of
      a first key f. */
  function Delay(d: int, f: int): int {
    if d >= 1 then 0
    else if d == -0x8000_0000 then 0x8000_0000 - f
    else if f - d < 0x8000_0000 then 1 - d
    else 1 - f
  }

  /** The list behind one that will be woken at tick w, with d taken off its first key. */
  lemma BehindFront(l: seq<int>, key: seq<int>, wake: seq<int>, t: int, key': seq<int>, d: int)
    requires Delta(l, key, wake, t) && l != [] && key[l[0]] >= 1 && Distinct(l) && InInt32(d) && d < 1
    requires |key'| == |key| && key'[l[0]] == Int32(key[l[0]] - d) && forall p :: 0 <= p < |key| && p in l && p != l[0] ==> key'[p] == key[p]
    ensures Following(l, key', FirstTick(d, t)) == WakeTicks(l, wake, Delay(d, key[l[0]]))
  {
    var u, b := l[1..], Delay(d, key[l[0]]);
    forall a | 0 <= a < |u| && 0 <= u[a] < |key|
      ensures key'[u[a]] == key[u[a]]
    {
      assert u[a] == l[a + 1] && l[a + 1] != l[0] && l[a + 1] in l;
    }
    FollowingFrame(u, key, key', wake[l[0]] + b);
    FollowingDelta(u, key, wake, wake[l[0]], b);
    WakeTicksCons(l, wake, b);
  }

  /** A delay that is not positive goes to the front, and moves everybody else by Delay. */
  lemma FrontForecast(l: seq<int>, key: seq<int>, wake: seq<int>, t: int, pid: int, d: int)
    requires Delta(l, key, wake, t) && (l != [] ==> key[l[0]] >= 1) && Distinct(l) && 0 <= pid < |key| && pid !in l && InInt32(d) && d < 1
    ensures DeltaPlace(l, key, d) == (0, d)
    ensures var f := if l == [] then 1 else key[l[0]];
      Forecast([pid] + l, KeyAfter(l, key, pid, 0, d), t) == [FirstTick(d, t)] + WakeTicks(l, wake, Delay(d, f))
  {
    var key' := KeyAfter(l, key, pid, 0, d);
    assert ([pid] + l)[1..] == l;
    assert Forecast([pid] + l, key', t) == [FirstTick(d, t)] + Following(l, key', FirstTick(d, t));
    if l != [] {
      BehindFront(l, key, wake, t, key', d);
    }
  }

  /** The time that a call asks to wait for, as insertd gets it. */
  function DelayOf(e: Event): int {
    match e
    case Sleepms(delay) => Int32(delay)
    case Recvtime(maxwait) => maxwait
    case _ => 0
  }

  /** The call puts the current process to sleep. */
  predicate GoesToSleep(k: Kernel, e: Event)
    requires Sized(k)
  {
    (e.Sleepms? && e.delay != 0) || (e.Recvtime? && e.maxwait >= 0 && !k.procs[k.curr].hasmsg)
  }

  /** A call that puts the current process to sleep keeps everybody on time exactly if its delay is
      positive as a 32-bit number. If it is not, the caller goes to the front and everybody else is
      woken late, or early, by Delay: with a first key f, late by 1 - d for a delay of d; early by
      f - 1 if f - d wraps around; and for d = -2^31, whose count wraps around, late by 2^31 - f. */
  lemma SleepForecast(k: Kernel, e: Event)
    requires Inv(k) && OnTime(k) && Enabled(k, e) && GoesToSleep(k, e)
    ensures var k', l, d := Step(k, e).0, k.q[SleepQ(k)], DelayOf(e);
      && Inv(k') && k'.now == k.now
      && (OnTime(k') <==> d >= 1)
      && (d < 1 ==> k'.q[SleepQ(k')] == [k.curr] + l)
      && (d < 1 ==> Forecast([k.curr] + l, k'.key, k.now) == [FirstTick(d, k.now)] + WakeTicks(l, k.wake, Delay(d, if l == [] then 1 else k.key[l[0]])))
  {
    hide Asleep, Resched, Forecast, WakeTicks, BaseCore;
    StepKeeps(k, e);
    if DelayOf(e) >= 1 {
      StepOnTime(k, e);
      StepNow(k, e);
    } else {
      SleepsInFront(k, e);
    }
  }

  /** The caller asleep, before the processor goes to another process. */
  function SleepingState(k: Kernel, e: Event): Kernel
    requires Sized(k)
  {
    Asleep(if e.Recvtime? then k.(pend := k.pend[k.curr := InRecvtime]) else k, k.curr, DelayOf(e), if e.Recvtime? then PrRectim else PrSleep)
  }

  lemma FallsAsleep(k: Kernel, e: Event)
    requires Inv(k) && Enabled(k, e) && GoesToSleep(k, e)
    ensures Step(k, e).0 == Resched(SleepingState(k, e))
  {
    hide DeltaPlace, Top, Place, MadeReady, Without, InsertAt, KeyAfter;
  }

  /** A sleeper with nothing left to wait goes in front. */
  lemma SleepsInFront(k: Kernel, e: Event)
    requires Inv(k) && OnTime(k) && Enabled(k, e) && GoesToSleep(k, e) && DelayOf(e) < 1
    ensures var k', l, d := Step(k, e).0, k.q[SleepQ(k)], DelayOf(e);
      && Sized(k') && k'.now == k.now && !OnTime(k') && k'.q[SleepQ(k')] == [k.curr] + l
      && Forecast([k.curr] + l, k'.key, k.now) == [FirstTick(d, k.now)] + WakeTicks(l, k.wake, Delay(d, if l == [] then 1 else k.key[l[0]]))
  {
    hide DeltaPlace, Top, Place, MadeReady, Without;
    var k', l, d, c := Step(k, e).0, k.q[SleepQ(k)], DelayOf(e), k.curr;
    StepKeeps(k, e);
    assert BaseSpelledOut(k);
    assert QueueOk(k, SleepQ(k)) && QueueOf(k, c) == -1 && c !in l;
    FrontForecast(l, k.key, k.wake, k.now, c, d);
    assert InsertAt(l, 0, c) == [c] + l;
    FallsAsleep(k, e);
    assert SleepingState(k, e).q[SleepQ(k)] == [c] + l && SleepingState(k, e).key == KeyAfter(l, k.key, c, 0, d);
    AsleepSwitch(SleepingState(k, e));
  }

  /** Going to sleep takes no time. */
  lemma StepNow(k: Kernel, e: Event)
    requires Inv(k) && Enabled(k, e) && GoesToSleep(k, e)
    ensures Step(k, e).0.now == k.now
  {
    hide DeltaPlace, Place, InsertAt, Without;
  }

  /** Switching to another process leaves the sleep queue alone. */
  lemma AsleepSwitch(k: Kernel)
    requires Sized(k) && k.procs[k.curr].state != PrCurr
    ensures Resched(k).q[SleepQ(k)] == k.q[SleepQ(k)] && Resched(k).key == k.key && Resched(k).now == k.now && |Resched(k).sems| == |k.sems|
  {
  }

  /** Process 2 runs, and process 1 has ten ticks left to sleep. */
  function TwoProcesses(): Kernel {
    var proc := Proc(PrCurr, 20, 0, false, 0);
    Kernel([Proc(PrReady, 0, 0, false, 0), proc.(state := PrSleep), proc], 2, [[], [0], [1]], [0, 10, 20], [Sem(false, 0)], 0, QUANTUM,
           [Nothing, Nothing, Nothing], 0, [0, 10, 0], [Log([], []), Log([], []), Log([], [])])
  }

  lemma TwoProcessesMail()
    ensures var k := TwoProcesses(); forall p :: 0 <= p < |k.procs| ==> MailOk(k, p) && PrioOk(k, p)
  {
  }

  lemma TwoProcessesQueued()
    ensures Queued(TwoProcesses()) && Ordered(TwoProcesses()) && SemOk(TwoProcesses(), 0)
  {
    var k := TwoProcesses();
    forall i | 0 <= i < |k.q|
      ensures QueueOk(k, i)
    {
    }
    forall p | 0 <= p < |k.procs|
      ensures OnlyHere(k, p)
    {
    }
  }

  lemma TwoProcessesOk()
    ensures Inv(TwoProcesses()) && OnTime(TwoProcesses()) && KeysOk(TwoProcesses())
  {
    hide Queued, Ordered, MailOk, PrioOk, SemOk;
    TwoProcessesMail();
    TwoProcessesQueued();
    assert BaseCore(TwoProcesses());
  }

  /** Process 2 waits too. If it asks for a positive time, process 1 is woken at its tick, 10. With
      recvtime(0) it is one tick late. A sleep of 2^31 + 1 ms wakes both at the next tick, and one of
      2^31 ms wakes both 2^31 ticks later. */
  lemma SleepInstances()
    ensures var k := TwoProcesses();
      && Inv(k) && OnTime(k) && KeysOk(k)
      && (forall e :: e in {Sleepms(5), Recvtime(0), Sleepms(0x8000_0001), Sleepms(0x8000_0000)} ==> Enabled(k, e) && GoesToSleep(k, e))
      && OnTime(Step(k, Sleepms(5)).0)
      && Forecast([2, 1], Step(k, Recvtime(0)).0.key, 0) == [1, 11]
      && Forecast([2, 1], Step(k, Sleepms(0x8000_0001)).0.key, 0) == [1, 1]
      && Forecast([2, 1], Step(k, Sleepms(0x8000_0000)).0.key, 0) == [0x8000_0000, 0x8000_0000]
  {
    hide Inv, KeysOk, Step, Resched, DeltaPlace, KeyAfter;
    var k := TwoProcesses();
    TwoProcessesOk();
    SleepForecast(k, Sleepms(5));
    SleepForecast(k, Recvtime(0));
    SleepForecast(k, Sleepms(0x8000_0001));
    SleepForecast(k, Sleepms(0x8000_0000));
  }
}
