/** The delta list of sleeping processes against absolute wake-up ticks. */
module ProcessClock {
  import opened DistinctLists
  import opened ProcessSpec
  import opened ProcessSteps
  import opened ProcessCalls
  import opened ProcessKeeps

  /** Read from the front with the keys added up from tick t, the list gives everybody's wake-up
      tick; no key is negative, and all have 32 bits. */
  ghost predicate Delta(l: seq<int>, key: seq<int>, wake: seq<int>, t: int) {
    l == [] || (0 <= l[0] < |key| == |wake| && 0 <= key[l[0]] < 0x8000_0000 && wake[l[0]] == t + key[l[0]] && Delta(l[1..], key, wake, wake[l[0]]))
  }

  /** Nobody wakes as late as that. */
  ghost predicate Near(l: seq<int>, wake: seq<int>, limit: int) {
    forall a :: 0 <= a < |l| && 0 <= l[a] < |wake| ==> wake[l[a]] < limit
  }

  /** Every sleeper is where its wake-up tick says, and that tick is still to come, within 2^31. */
  ghost predicate OnTime(k: Kernel)
    requires Sized(k)
  {
    var l := k.q[SleepQ(k)];
    Delta(l, k.key, k.wake, k.now) && Near(l, k.wake, k.now + 0x8000_0000) && (l != [] ==> 0 <= l[0] < |k.key| && k.key[l[0]] >= 1)
  }

  // ---- the list

  lemma {:induction false} DeltaFrame(l: seq<int>, key: seq<int>, wake: seq<int>, key': seq<int>, wake': seq<int>, t: int)
    requires Delta(l, key, wake, t) && |key'| == |key| == |wake| == |wake'|
    requires forall a :: 0 <= a < |l| && 0 <= l[a] < |key| ==> key'[l[a]] == key[l[a]] && wake'[l[a]] == wake[l[a]]
    ensures Delta(l, key', wake', t)
  {
    if l != [] {
      forall a | 0 <= a < |l[1..]| && 0 <= l[1..][a] < |key|
        ensures key'[l[1..][a]] == key[l[1..][a]] && wake'[l[1..][a]] == wake[l[1..][a]]
      {
        assert l[1..][a] == l[a + 1];
      }
      DeltaFrame(l[1..], key, wake, key', wake', wake[l[0]]);
    }
  }

  lemma {:induction false} DeltaRange(l: seq<int>, key: seq<int>, wake: seq<int>, t: int, a: int)
    requires Delta(l, key, wake, t) && 0 <= a < |l|
    ensures 0 <= l[a] < |key| == |wake| && key[l[a]] >= 0 && wake[l[a]] >= t + key[l[0]] && wake[l[a]] >= t
  {
    if a > 0 {
      DeltaRange(l[1..], key, wake, wake[l[0]], a - 1);
    }
  }

  /** A process in front of all others. */
  lemma DeltaFirst(l: seq<int>, key: seq<int>, wake: seq<int>, t: int, pid: int, d: int)
    requires Delta(l, key, wake, t) && 0 <= pid < |key| == |wake| && pid !in l && Distinct(l) && 0 <= d < 0x8000_0000 && (l != [] ==> key[l[0]] > d)
    ensures Delta(l, KeyAfter(l, key, pid, 0, d), wake[pid := t + d], t + d)
  {
    if l != [] {
      var u, key', wake' := l[1..], KeyAfter(l, key, pid, 0, d), wake[pid := t + d];
      forall a | 0 <= a < |u| && 0 <= u[a] < |key|
        ensures key'[u[a]] == key[u[a]] && wake'[u[a]] == wake[u[a]]
      {
        assert u[a] == l[a + 1] && l[a + 1] != l[0];
      }
      DeltaFrame(u, key, wake, key', wake', wake[l[0]]);
    }
  }

  /** insertd puts a process where its wake-up tick belongs, behind those with the same tick, and
      leaves the ticks of all others alone. */
  lemma {:induction false} DeltaInsert(l: seq<int>, key: seq<int>, wake: seq<int>, t: int, pid: int, d: int)
    requires Delta(l, key, wake, t) && 0 <= pid < |key| == |wake| && pid !in l && 0 <= d < 0x8000_0000 && Distinct(l)
    ensures var (j, rest) := DeltaPlace(l, key, d);
      && Delta(InsertAt(l, j, pid), KeyAfter(l, key, pid, j, rest), wake[pid := t + d], t)
      && (j == 0 ==> rest == d) && (j > 0 ==> l != [] && KeyAfter(l, key, pid, j, rest)[l[0]] == key[l[0]])
  {
    hide InsertAt, KeyAfter, Distinct, DeltaPlace;
    if l == [] || key[l[0]] > d {
      DeltaFront(l, key, wake, t, pid, d);
    } else {
      var u := l[1..];
      TailPlace(l, key, pid, d);
      DeltaInsert(u, key, wake, wake[l[0]], pid, d - key[l[0]]);
      var (j, rest) := DeltaPlace(l, key, d);
      InsertTail(l, key, pid, j, rest);
      KeyOthers(u, key, pid, j - 1, rest, l[0]);
    }
  }

  lemma DeltaFront(l: seq<int>, key: seq<int>, wake: seq<int>, t: int, pid: int, d: int)
    requires Delta(l, key, wake, t) && 0 <= pid < |key| == |wake| && pid !in l && 0 <= d < 0x8000_0000 && Distinct(l) && (l != [] ==> key[l[0]] > d)
    ensures DeltaPlace(l, key, d) == (0, d) && Delta(InsertAt(l, 0, pid), KeyAfter(l, key, pid, 0, d), wake[pid := t + d], t)
  {
    assert InsertAt(l, 0, pid) == [pid] + l && ([pid] + l)[1..] == l;
    DeltaFirst(l, key, wake, t, pid, d);
  }

  /** The place is one further than in the rest of the list. */
  lemma TailPlace(l: seq<int>, key: seq<int>, pid: int, d: int)
    requires l != [] && 0 <= l[0] < |key| && 0 <= key[l[0]] <= d < 0x8000_0000 && Distinct(l) && pid !in l
    ensures DeltaPlace(l, key, d) == (DeltaPlace(l[1..], key, d - key[l[0]]).0 + 1, DeltaPlace(l[1..], key, d - key[l[0]]).1)
    ensures l[0] !in l[1..] && pid !in l[1..] && l[0] != pid && Distinct(l[1..])
  {
    assert l == [l[0]] + l[1..];
  }

  lemma KeyOthers(l: seq<int>, key: seq<int>, pid: int, j: nat, rest: int, x: int)
    requires 0 <= pid < |key| && 0 <= x < |key| && x != pid && x !in l
    ensures |KeyAfter(l, key, pid, j, rest)| == |key| && KeyAfter(l, key, pid, j, rest)[x] == key[x]
  {
  }

  /** Past the first process, insertion is insertion into the rest of the list. */
  lemma InsertTail(l: seq<int>, key: seq<int>, pid: int, j: nat, rest: int)
    requires l != [] && 0 < j <= |l| && 0 <= pid < |key|
    ensures InsertAt(l, j, pid)[0] == l[0] && InsertAt(l, j, pid)[1..] == InsertAt(l[1..], j - 1, pid)
    ensures KeyAfter(l, key, pid, j, rest) == KeyAfter(l[1..], key, pid, j - 1, rest)
  {
    assert InsertAt(l, j, pid) == [l[0]] + InsertAt(l[1..], j - 1, pid);
    if j < |l| {
      assert l[j] == l[1..][j - 1];
    }
  }

  /** The first sleeper's remaining key goes to the next one. */
  lemma DeltaFirstOut(l: seq<int>, key: seq<int>, wake: seq<int>, t: int)
    requires Delta(l, key, wake, t) && |l| > 1 && Distinct(l) && Near(l, wake, t + 0x8000_0000)
    ensures 0 <= l[0] < |key| && 0 <= l[1] < |key| && Delta(l[1..], key[l[1] := Int32(key[l[1]] + key[l[0]])], wake, t)
  {
    var u := l[1..];
    assert u[0] == l[1] && wake[l[1]] == t + key[l[0]] + key[l[1]];
    var key', v := key[l[1] := Int32(key[l[1]] + key[l[0]])], u[1..];
    forall a | 0 <= a < |v| && 0 <= v[a] < |key|
      ensures key'[v[a]] == key[v[a]]
    {
      assert v[a] == l[a + 2] && l[a + 2] != l[1];
    }
    DeltaFrame(v, key, wake, key', wake, wake[u[0]]);
  }

  /** Behind the first sleeper, taking one out is taking it out of the rest. */
  lemma GivenTail(l: seq<int>, key: seq<int>, pid: int)
    requires l != [] && l[0] != pid && pid in l && Distinct(l) && 0 <= pid < |key|
    ensures pid in l[1..] && KeyGiven(l, key, pid) == KeyGiven(l[1..], key, pid) && Without(l, pid) == [l[0]] + Without(l[1..], pid)
    ensures |KeyGiven(l, key, pid)| == |key| && (0 <= l[0] < |key| ==> KeyGiven(l, key, pid)[l[0]] == key[l[0]])
  {
    var j, u := PlaceOf(l, pid), l[1..];
    assert l == [l[0]] + u;
    if j < |l| - 1 {
      assert l[j + 1] == u[j] && l[j + 1] != l[0];
    }
  }

  /** Taking a sleeper out, its remaining key added to the next one's, leaves all others alone. */
  lemma {:induction false} DeltaRemove(l: seq<int>, key: seq<int>, wake: seq<int>, t: int, pid: int)
    requires Delta(l, key, wake, t) && 0 <= pid < |key| == |wake| && pid in l && Distinct(l) && Near(l, wake, t + 0x8000_0000)
    ensures 0 <= PlaceOf(l, pid) < |l| && Delta(Without(l, pid), KeyGiven(l, key, pid), wake, t)
    decreases |l|, 1
  {
    if l[0] == pid {
      if |l| > 1 {
        DeltaFirstOut(l, key, wake, t);
      }
    } else {
      DeltaBehind(l, key, wake, t, pid);
    }
  }

  lemma {:induction false} DeltaBehind(l: seq<int>, key: seq<int>, wake: seq<int>, t: int, pid: int)
    requires Delta(l, key, wake, t) && 0 <= pid < |key| == |wake| && pid in l && Distinct(l) && Near(l, wake, t + 0x8000_0000) && l[0] != pid
    ensures Delta(Without(l, pid), KeyGiven(l, key, pid), wake, t)
    decreases |l|, 0
  {
    hide KeyGiven, Without, PlaceOf;
    GivenTail(l, key, pid);
    TailNear(l, wake, t + 0x8000_0000, wake[l[0]] + 0x8000_0000);
    DeltaRemove(l[1..], key, wake, wake[l[0]], pid);
    assert ([l[0]] + Without(l[1..], pid))[1..] == Without(l[1..], pid);
  }

  lemma TailNear(l: seq<int>, wake: seq<int>, limit: int, limit': int)
    requires Near(l, wake, limit) && l != [] && limit <= limit'
    ensures Near(l[1..], wake, limit')
  {
    assert forall a :: 0 <= a < |l[1..]| ==> l[1..][a] == l[a + 1];
  }

  /** Dropping those that are due: exactly the ones whose tick has come, if keys are not negative. */
  lemma {:induction false} DeltaDue(l: seq<int>, key: seq<int>, wake: seq<int>, t: int)
    requires Delta(l, key, wake, t)
    ensures var n := Due(l, key);
      && Delta(l[n..], key, wake, t) && (n < |l| ==> 0 <= l[n] < |key| && key[l[n]] >= 1)
      && forall a :: 0 <= a < |l| ==> 0 <= l[a] < |wake| && (a < n <==> wake[l[a]] == t)
  {
    var n := Due(l, key);
    if n == 0 {
      NoneDue(l, key, wake, t);
      assert l[0..] == l;
    } else {
      DeltaDue(l[1..], key, wake, t);
      OneDue(l, wake, t, n);
    }
  }

  /** With a first key that is not zero nobody is due. */
  lemma NoneDue(l: seq<int>, key: seq<int>, wake: seq<int>, t: int)
    requires Delta(l, key, wake, t) && (l != [] ==> key[l[0]] > 0)
    ensures forall a :: 0 <= a < |l| ==> 0 <= l[a] < |wake| && wake[l[a]] != t
  {
    hide Delta;
    forall a | 0 <= a < |l|
      ensures 0 <= l[a] < |wake| && wake[l[a]] != t
    {
      DeltaRange(l, key, wake, t, a);
    }
  }

  /** The first one is due too. */
  lemma OneDue(l: seq<int>, wake: seq<int>, t: int, n: nat)
    requires 0 < n <= |l| && 0 <= l[0] < |wake| && wake[l[0]] == t
    requires forall a :: 0 <= a < |l[1..]| ==> 0 <= l[1..][a] < |wake| && (a < n - 1 <==> wake[l[1..][a]] == t)
    ensures l[n..] == l[1..][n - 1..] && (n < |l| ==> l[n] == l[1..][n - 1])
    ensures forall a :: 0 <= a < |l| ==> 0 <= l[a] < |wake| && (a < n <==> wake[l[a]] == t)
  {
    forall a | 0 <= a < |l|
      ensures 0 <= l[a] < |wake| && (a < n <==> wake[l[a]] == t)
    {
      if a > 0 {
        assert l[a] == l[1..][a - 1];
      }
    }
  }

  // ---- the steps

  /** Nothing changes for those who sleep. */
  lemma OnTimeFrame(k: Kernel, k': Kernel)
    requires Sized(k) && Sized(k') && OnTime(k) && |k'.procs| == |k.procs| && k'.now == k.now
    requires k'.q[SleepQ(k')] == k.q[SleepQ(k)]
    requires forall a :: 0 <= a < |k.q[SleepQ(k)]| && 0 <= k.q[SleepQ(k)][a] < |k.key| ==>
               k'.key[k.q[SleepQ(k)][a]] == k.key[k.q[SleepQ(k)][a]] && k'.wake[k.q[SleepQ(k)][a]] == k.wake[k.q[SleepQ(k)][a]]
    ensures OnTime(k')
  {
    DeltaFrame(k.q[SleepQ(k)], k.key, k.wake, k'.key, k'.wake, k.now);
  }

  lemma MadeReadyTime(k: Kernel, pid: int)
    requires Queued(k) && OnTime(k) && 0 <= pid < |k.procs| && k.procs[pid].state !in {PrSleep, PrRectim}
    ensures OnTime(MadeReady(k, pid))
  {
    Members(k);
    assert OnlyHere(k, pid);
    OnTimeFrame(k, MadeReady(k, pid));
  }

  lemma ReschedTime(k: Kernel)
    requires Base(k) && OnTime(k) && k.procs[k.curr].state !in {PrSleep, PrRectim}
    ensures Sized(Resched(k)) && OnTime(Resched(k))
  {
    hide Place, Top, InsertAt, Delta, Near;
    ReschedOk(k);
    assert BaseSpelledOut(k);
    if k.procs[k.curr].state == PrCurr {
      MadeReadyTime(k, k.curr);
      var k1 := MadeReady(k, k.curr);
      if Resched(k) != k {
        OnTimeFrame(k1, Resched(k));
      }
    } else {
      OnTimeFrame(k, Resched(k));
    }
  }

  lemma InsertNear(l: seq<int>, wake: seq<int>, j: nat, pid: int, w: int, limit: int)
    requires Near(l, wake, limit) && j <= |l| && 0 <= pid < |wake| && pid !in l && w < limit
    ensures Near(InsertAt(l, j, pid), wake[pid := w], limit)
  {
    var l' := InsertAt(l, j, pid);
    forall a | 0 <= a < |l'| && 0 <= l'[a] < |wake|
      ensures wake[pid := w][l'[a]] < limit
    {
      assert l'[a] == if a < j then l[a] else if a == j then pid else l[a - 1];
    }
  }

  lemma WithoutNear(l: seq<int>, wake: seq<int>, pid: int, limit: int)
    requires Near(l, wake, limit) && Distinct(l)
    ensures Near(Without(l, pid), wake, limit)
  {
    WithoutIs(l, pid);
    var w := Without(l, pid);
    forall a | 0 <= a < |w| && 0 <= w[a] < |wake|
      ensures wake[w[a]] < limit
    {
      assert w[a] in w;
    }
  }

  /** A process goes to sleep for a positive time: it will wake on time, and so will the others. */
  lemma AsleepTime(k: Kernel, pid: int, d: int, state: PrState)
    requires Queued(k) && OnTime(k) && 0 <= pid < |k.procs| && QueueOf(k, pid) == -1 && 1 <= d < 0x8000_0000
    ensures Sized(Asleep(k, pid, d, state)) && OnTime(Asleep(k, pid, d, state))
  {
    var l := k.q[SleepQ(k)];
    assert QueueOk(k, SleepQ(k));
    assert pid !in l;
    DeltaInsert(l, k.key, k.wake, k.now, pid, d);
    var (j, rest) := DeltaPlace(l, k.key, d);
    assert Asleep(k, pid, d, state).key == KeyAfter(l, k.key, pid, j, rest);
    assert InsertAt(l, j, pid)[0] == if j == 0 then pid else l[0];
    InsertNear(l, k.wake, j, pid, k.now + d, k.now + 0x8000_0000);
  }

  /** A sleeper that is made ready, or killed, before its time. */
  lemma UnsleptTime(k: Kernel, pid: int)
    requires Queued(k) && OnTime(k) && 0 <= pid < |k.procs| && k.procs[pid].state in {PrSleep, PrRectim}
    ensures var l := Without(k.q[SleepQ(k)], pid);
      && pid in k.q[SleepQ(k)] && pid !in l && Delta(l, Unslept(k, pid).key, k.wake, k.now) && Near(l, k.wake, k.now + 0x8000_0000)
      && (l != [] ==> 0 <= l[0] < |k.key| && Unslept(k, pid).key[l[0]] >= 1)
  {
    var l := k.q[SleepQ(k)];
    assert OnlyHere(k, pid) && QueueOk(k, SleepQ(k));
    DeltaRemove(l, k.key, k.wake, k.now, pid);
    WithoutIs(l, pid);
    WithoutNear(l, k.wake, pid, k.now + 0x8000_0000);
    if |l| > 1 {
      DeltaRange(l, k.key, k.wake, k.now, 1);
      assert l[0] != l[1];
    }
  }

  lemma WokenEarly(k: Kernel, pid: int)
    requires Queued(k) && OnTime(k) && 0 <= pid < |k.procs| && k.procs[pid].state == PrRectim
    ensures OnTime(MadeReady(Unslept(k, pid), pid))
  {
    UnsleptTime(k, pid);
    var k1 := Unslept(k, pid);
    var k2 := MadeReady(k1, pid);
    var l := k2.q[SleepQ(k2)];
    assert l == Without(k.q[SleepQ(k)], pid);
    assert k2.wake == k.wake && k2.now == k.now;
    DeltaFrame(l, k1.key, k.wake, k2.key, k2.wake, k.now);
  }

  // ---- the tick

  lemma SleepersListed(k: Kernel)
    requires Base(k)
    ensures var l := k.q[SleepQ(k)]; Distinct(l) && forall a :: 0 <= a < |l| ==> 0 <= l[a] < |k.procs| && k.procs[l[a]].state in {PrSleep, PrRectim}
  {
    assert BaseSpelledOut(k);
    assert QueueOk(k, SleepQ(k));
    Members(k);
  }

  /** The first n sleepers are made ready, and nothing else happens to anybody. */
  lemma {:induction false} WokenTimesAre(k: Kernel, n: nat)
    requires Base(k) && n <= |k.q[SleepQ(k)]|
    ensures Base(WokenTimes(k, n)) && WokenTimes(k, n).q[SleepQ(k)] == k.q[SleepQ(k)][n..]
    ensures var l, k' := k.q[SleepQ(k)], WokenTimes(k, n);
      && k'.wake == k.wake && k'.now == k.now && |k'.procs| == |k.procs|
      && (forall p :: 0 <= p < |k.procs| && p !in l[..n] ==> k'.procs[p] == k.procs[p] && k'.key[p] == k.key[p])
      && (forall p :: 0 <= p < |k.procs| && p in l[..n] ==> k'.procs[p].state == PrReady)
  {
    hide BaseCore, Queued, Ordered, Resched, Place;
    WokenTimesOk(k, n);
    if n > 0 {
      WokenTimesAre(k, n - 1);
      var l, k1 := k.q[SleepQ(k)], WokenTimes(k, n - 1);
      assert l[..n] == l[..n - 1] + [l[n - 1]];
      assert k1.q[SleepQ(k)][0] == l[n - 1];
      SleepersListed(k1);
    }
  }

  lemma NotInPrefix(l: seq<int>, n: nat)
    requires Distinct(l) && n <= |l|
    ensures forall a :: 0 <= a < |l[n..]| ==> l[n..][a] !in l[..n]
  {
    forall a | 0 <= a < |l[n..]|
      ensures l[n..][a] !in l[..n]
    {
      assert l[n..][a] == l[n + a];
    }
  }

  lemma PrefixIs(l: seq<int>, n: nat, wake: seq<int>, t: int)
    requires n <= |l| && forall a :: 0 <= a < |l| ==> 0 <= l[a] < |wake| && (a < n <==> wake[l[a]] == t)
    ensures forall p :: p in l ==> 0 <= p < |wake| && (p in l[..n] <==> wake[p] == t)
  {
    forall p | p in l
      ensures 0 <= p < |wake| && (p in l[..n] <==> wake[p] == t)
    {
      var a :| 0 <= a < |l| && l[a] == p;
      if a < n {
        assert l[..n][a] == p;
      }
    }
  }

  /** Waking the first n leaves the rest of the list as it was. */
  lemma RestDelta(k: Kernel, n: nat, t: int)
    requires Base(k) && n <= |k.q[SleepQ(k)]| && Delta(k.q[SleepQ(k)][n..], k.key, k.wake, t)
    ensures var l, k' := k.q[SleepQ(k)], WokenTimes(k, n);
      && k'.q[SleepQ(k)] == l[n..] && k'.wake == k.wake && k'.now == k.now && Delta(l[n..], k'.key, k.wake, t)
      && (n < |l| && 0 <= l[n] < |k.key| ==> k'.key[l[n]] == k.key[l[n]])
  {
    var l, k' := k.q[SleepQ(k)], WokenTimes(k, n);
    assert Distinct(l) by {
      assert BaseSpelledOut(k);
      assert QueueOk(k, SleepQ(k));
    }
    WokenTimesAre(k, n);
    NotInPrefix(l, n);
    if n < |l| {
      assert l[n..][0] == l[n];
    }
    DeltaFrame(l[n..], k.key, k.wake, k'.key, k.wake, t);
  }

  /** The state after the count, before anybody is woken. */
  function Counted(k: Kernel): Kernel
    requires Sized(k)
  {
    var l := k.q[SleepQ(k)];
    k.(now := k.now + 1, key := if l != [] && 0 <= l[0] < |k.key| then k.key[l[0] := Int32(k.key[l[0]] - 1)] else k.key)
  }

  /** The tick wakes the first n sleepers; those are the ones whose tick it is. */
  lemma TickIs(k: Kernel) returns (n: nat)
    requires Inv(k) && OnTime(k)
    ensures var l, k2 := k.q[SleepQ(k)], Counted(k);
      && n <= |l| && Distinct(l) && Base(k2) && Ticked(k) == WokenTimes(k2, n)
      && Delta(l[n..], k2.key, k.wake, k.now + 1) && (n < |l| ==> 0 <= l[n] < |k.key| && k2.key[l[n]] >= 1)
      && (forall p :: p in l ==> 0 <= p < |k.wake| && (p in l[..n] <==> k.wake[p] == k.now + 1))
  {
    var l, k2 := k.q[SleepQ(k)], Counted(k);
    assert BaseSpelledOut(k);
    assert QueueOk(k, SleepQ(k));
    if l == [] {
      n := 0;
      CountedSame(k);
    } else {
      CountedDown(l, k.key, k.wake, k.now);
      CountedBase(k);
      n := Due(l, k2.key);
      DeltaDue(l, k2.key, k.wake, k.now + 1);
      PrefixIs(l, n, k.wake, k.now + 1);
    }
  }

  lemma CountedSame(k: Kernel)
    requires Inv(k) && k.q[SleepQ(k)] == []
    ensures Base(Counted(k))
  {
    var c := k.curr;
    assert BaseSpelledOut(k);
    assert MailOk(k, c) && PrioOk(k, c);
    BaseTo(k, c, -1);
    Stays(k, Counted(k), c, -1);
    BaseFrom(Counted(k), c, -1);
  }

  lemma TickOnTime(k: Kernel)
    requires Inv(k) && OnTime(k)
    ensures OnTime(Ticked(k)) && Ticked(k).wake == k.wake && Ticked(k).now == k.now + 1
  {
    hide WokenTimes, Due, Distinct;
    var n := TickIs(k);
    var l, k2, k' := k.q[SleepQ(k)], Counted(k), Ticked(k);
    RestDelta(k2, n, k.now + 1);
    assert forall a :: 0 <= a < |l[n..]| ==> l[n..][a] == l[n + a];
  }

  /** Each sleeper is made ready on exactly its own tick, ties included. */
  lemma TickWakes(k: Kernel)
    requires Inv(k) && OnTime(k)
    ensures var k' := Ticked(k);
      && |k'.procs| == |k.procs|
      && (forall p :: 0 <= p < |k.procs| && k.procs[p].state in {PrSleep, PrRectim} ==>
            if k.wake[p] == k.now + 1 then k'.procs[p].state == PrReady else k'.procs[p] == k.procs[p])
      && (forall p :: 0 <= p < |k.procs| && k.procs[p].state !in {PrSleep, PrRectim} ==> k'.procs[p] == k.procs[p])
  {
    var n := TickIs(k);
    var l := k.q[SleepQ(k)];
    WokenTimesAre(Counted(k), n);
    SleepersOn(k) by {
      assert BaseSpelledOut(k);
    }
    assert forall p :: p in l[..n] ==> p in l;
  }

  /** Who sleeps is on the list, and who does not is not. */
  lemma SleepersOn(k: Kernel)
    requires Queued(k)
    ensures forall p :: 0 <= p < |k.procs| ==> (k.procs[p].state in {PrSleep, PrRectim} <==> p in k.q[SleepQ(k)])
  {
    Members(k);
    forall p | 0 <= p < |k.procs| && k.procs[p].state in {PrSleep, PrRectim}
      ensures p in k.q[SleepQ(k)]
    {
      assert OnlyHere(k, p);
    }
  }

  lemma CountedDown(l: seq<int>, key: seq<int>, wake: seq<int>, t: int)
    requires Delta(l, key, wake, t) && l != [] && key[l[0]] >= 1 && Distinct(l)
    ensures Delta(l, key[l[0] := Int32(key[l[0]] - 1)], wake, t + 1)
  {
    var u, key' := l[1..], key[l[0] := Int32(key[l[0]] - 1)];
    forall a | 0 <= a < |u| && 0 <= u[a] < |key|
      ensures key'[u[a]] == key[u[a]]
    {
      assert u[a] == l[a + 1] && l[a + 1] != l[0];
    }
    DeltaFrame(u, key, wake, key', wake, wake[l[0]]);
  }

  lemma CountedBase(k: Kernel)
    requires Inv(k) && k.q[SleepQ(k)] != []
    ensures var f := k.q[SleepQ(k)][0]; 0 <= f < |k.key| && Base(k.(now := k.now + 1, key := k.key[f := Int32(k.key[f] - 1)]))
  {
    var c := k.curr;
    assert BaseSpelledOut(k);
    Members(k);
    assert MailOk(k, c) && PrioOk(k, c);
    var f := k.q[SleepQ(k)][0];
    var k2 := k.(now := k.now + 1, key := k.key[f := Int32(k.key[f] - 1)]);
    BaseTo(k, c, -1);
    Stays(k, k2, c, -1);
    BaseFrom(k2, c, -1);
  }
}
