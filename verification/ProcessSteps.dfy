/** The system calls and the clock tick as steps, and the invariant that every step keeps. */
module ProcessSteps {
  import opened DistinctLists
  import opened ProcessSpec

  /** Who is on the ready list is ready, and who is on the sleep queue sleeps. */
  lemma Members(k: Kernel)
    requires Queued(k)
    ensures forall a :: 0 <= a < |k.q[ReadyQ(k)]| ==> 0 <= k.q[ReadyQ(k)][a] < |k.procs| && k.procs[k.q[ReadyQ(k)][a]].state == PrReady
    ensures forall a :: 0 <= a < |k.q[SleepQ(k)]| ==> 0 <= k.q[SleepQ(k)][a] < |k.procs| && k.procs[k.q[SleepQ(k)][a]].state in {PrSleep, PrRectim}
  {
    forall i, a | i in {ReadyQ(k), SleepQ(k)} && 0 <= a < |k.q[i]|
      ensures 0 <= k.q[i][a] < |k.procs| && k.procs[k.q[i][a]].state in (if i == ReadyQ(k) then {PrReady} else {PrSleep, PrRectim})
    {
      assert QueueOk(k, i);
      assert OnlyHere(k, k.q[i][a]);
    }
  }

  // ---- leaving and joining a queue

  /** The invariant but for process pid's mailbox and semaphore s. */
  ghost predicate BaseBut(k: Kernel, pid: int, s: int) {
    && Sized(k) && Queued(k) && Ordered(k)
    && (forall r {:trigger SemOk(k, r)} :: 0 <= r < |k.sems| && r != s ==> SemOk(k, r))
    && (forall p {:trigger MailOk(k, p)} {:trigger PrioOk(k, p)} :: 0 <= p < |k.procs| ==> (p != pid ==> MailOk(k, p)) && PrioOk(k, p))
  }

  lemma BaseFrom(k: Kernel, pid: int, s: int)
    requires Sized(k) && BaseBut(k, pid, s) && (0 <= pid < |k.procs| ==> MailOk(k, pid)) && (0 <= s < |k.sems| ==> SemOk(k, s))
    ensures Base(k)
  {
    assert BaseCore(k);
  }

  lemma BaseTo(k: Kernel, pid: int, s: int)
    requires Base(k)
    ensures BaseBut(k, pid, s)
  {
    assert BaseSpelledOut(k);
  }

  /** Only process pid, and queue i, differ. */
  ghost predicate Changes(k: Kernel, k': Kernel, pid: int, i: int) {
    && Sized(k) && Sized(k') && 0 <= pid < |k.procs| == |k'.procs| && |k'.sems| == |k.sems|
    && k'.procs == k.procs[pid := k'.procs[pid]]
    && (0 <= i < |k.q| ==> k'.q == k.q[i := k'.q[i]]) && (!(0 <= i < |k.q|) ==> k'.q == k.q)
  }

  /** A queue that process pid is not on stays as good as it was. */
  lemma OtherQueue(k: Kernel, k': Kernel, pid: int, r: int)
    requires Sized(k) && Sized(k') && 0 <= r < |k.q| && |k'.q| == |k.q| && k'.q[r] == k.q[r] && QueueOk(k, r) && pid !in k.q[r]
    requires 0 <= pid < |k.procs| == |k'.procs| && |k'.sems| == |k.sems| && k'.procs == k.procs[pid := k'.procs[pid]]
    ensures QueueOk(k', r)
  {
    forall a | 0 <= a < |k.q[r]|
      ensures 0 <= k.q[r][a] < |k'.procs| && QueueOf(k', k.q[r][a]) == r
    {
      assert k.q[r][a] in k.q[r];
    }
  }

  lemma OthersHere(k: Kernel, k': Kernel, pid: int, i: int, p: int)
    requires Changes(k, k', pid, i) && 0 <= p < |k.procs| && p != pid && OnlyHere(k, p)
    requires 0 <= i < |k.q| ==> forall x :: x in k.q[i] && x != pid ==> x in k'.q[i]
    ensures OnlyHere(k', p)
  {
  }

  lemma LeaveQueued(k: Kernel, k': Kernel, pid: int)
    requires Queued(k) && 0 <= pid < |k.procs| && Changes(k, k', pid, QueueOf(k, pid))
    requires 0 <= QueueOf(k, pid) < |k.q| ==> k'.q[QueueOf(k, pid)] == Without(k.q[QueueOf(k, pid)], pid)
    requires QueueOf(k', pid) == -1 && k'.procs[pid].state != PrWait
    ensures Queued(k')
  {
    var i := QueueOf(k, pid);
    assert OnlyHere(k, pid);
    if i >= 0 {
      assert QueueOk(k, i);
      WithoutIs(k.q[i], pid);
      forall a | 0 <= a < |k'.q[i]|
        ensures k'.q[i][a] in k.q[i] && k'.q[i][a] != pid
      {
        assert k'.q[i][a] in k'.q[i];
      }
      assert QueueOk(k', i);
    }
    forall r | 0 <= r < |k'.q|
      ensures QueueOk(k', r)
    {
      if r != i {
        assert QueueOk(k, r);
        OtherQueue(k, k', pid, r);
      }
    }
    forall p | 0 <= p < |k'.procs|
      ensures OnlyHere(k', p)
    {
      assert OnlyHere(k, p);
      if p != pid {
        OthersHere(k, k', pid, i, p);
      }
    }
  }

  lemma JoinQueued(k: Kernel, k': Kernel, pid: int, i: int, j: nat)
    requires Queued(k) && 0 <= pid < |k.procs| && QueueOf(k, pid) == -1 && 0 <= i < |k.q| && Changes(k, k', pid, i)
    requires j <= |k.q[i]| && k'.q[i] == InsertAt(k.q[i], j, pid) && QueueOf(k', pid) == i
    requires k'.procs[pid].state == PrWait ==> 0 <= k'.procs[pid].sem < |k'.sems|
    ensures Queued(k')
  {
    assert QueueOk(k, i);
    assert pid !in k.q[i];
    InsertAtIs(k.q[i], j, pid);
    forall a | 0 <= a < |k'.q[i]|
      ensures k'.q[i][a] == pid || k'.q[i][a] in k.q[i]
    {
      assert k'.q[i][a] in k'.q[i];
    }
    assert QueueOk(k', i);
    forall r | 0 <= r < |k'.q|
      ensures QueueOk(k', r)
    {
      if r != i {
        assert QueueOk(k, r);
        OtherQueue(k, k', pid, r);
      }
    }
    forall p | 0 <= p < |k'.procs|
      ensures OnlyHere(k', p)
    {
      assert OnlyHere(k, p);
      if p != pid {
        OthersHere(k, k', pid, i, p);
      }
    }
  }

  lemma ReadyDistinct(k: Kernel)
    requires Queued(k)
    ensures Distinct(k.q[ReadyQ(k)])
  {
    assert QueueOk(k, ReadyQ(k));
  }

  /** The ready list without a process. */
  lemma FewerOrdered(k: Kernel, k': Kernel, pid: int)
    requires Sized(k) && Ordered(k) && Sized(k') && |k'.procs| == |k.procs| && |k'.sems| == |k.sems| && k'.key == k.key
    requires 0 <= pid < |k.procs| && k'.procs == k.procs[pid := k'.procs[pid]] && Distinct(k.q[ReadyQ(k)])
    requires k'.q[ReadyQ(k)] == Without(k.q[ReadyQ(k)], pid)
    ensures Ordered(k')
  {
    var l, l' := k.q[ReadyQ(k)], k'.q[ReadyQ(k)];
    WithoutIs(l, pid);
    forall a | 0 <= a < |l'|
      ensures l'[a] in l && l'[a] != pid
    {
      var w := Without(l, pid);
      assert l'[a] == w[a] && w[a] in w;
    }
    forall a, b | 0 <= a < b < |l'| && 0 <= l'[a] < |k.procs| && 0 <= l'[b] < |k.procs|
      ensures k'.procs[l'[a]].prio >= k'.procs[l'[b]].prio
    {
      var c, d := WithoutOrder(l, pid, a, b);
    }
  }

  /** The ready list as it was; the process is not on it. */
  lemma StillInOrder(k: Kernel, k': Kernel, pid: int)
    requires Sized(k) && Ordered(k) && Sized(k') && |k'.procs| == |k.procs| && |k'.sems| == |k.sems| && k'.key == k.key
    requires 0 <= pid < |k.procs| && k'.procs == k.procs[pid := k'.procs[pid]] && pid !in k.q[ReadyQ(k)]
    requires k'.q[ReadyQ(k)] == k.q[ReadyQ(k)]
    ensures Ordered(k')
  {
    var l := k.q[ReadyQ(k)];
    assert forall a :: 0 <= a < |l| ==> l[a] in l;
  }

  /** Taking a process off the ready list, or any other queue, keeps the ready list in order. */
  lemma LeaveOrdered(k: Kernel, k': Kernel, pid: int)
    requires Queued(k) && Ordered(k) && 0 <= pid < |k.procs| && Changes(k, k', pid, QueueOf(k, pid)) && k'.key == k.key
    requires 0 <= QueueOf(k, pid) < |k.q| ==> k'.q[QueueOf(k, pid)] == Without(k.q[QueueOf(k, pid)], pid)
    requires QueueOf(k', pid) == -1 && k'.procs[pid].state != PrWait
    ensures Ordered(k')
  {
    hide QueueOk, Ordered;
    var l, l' := k.q[ReadyQ(k)], k'.q[ReadyQ(k)];
    assert OnlyHere(k, pid);
    Members(k);
    ReadyDistinct(k);
    if QueueOf(k, pid) == ReadyQ(k) {
      FewerOrdered(k, k', pid);
    } else {
      StillInOrder(k, k', pid);
    }
  }

  ghost predicate Descending(l: seq<int>, v: seq<int>) {
    && (forall a :: 0 <= a < |l| ==> 0 <= l[a] < |v|)
    && (forall a, b :: 0 <= a < b < |l| ==> v[l[a]] >= v[l[b]])
  }

  lemma InsertDescending(l: seq<int>, v: seq<int>, j: nat, pid: int)
    requires Descending(l, v) && 0 <= pid < |v| && j <= |l|
    requires (forall a :: 0 <= a < j ==> v[l[a]] >= v[pid]) && (j < |l| ==> v[l[j]] < v[pid])
    ensures Descending(InsertAt(l, j, pid), v)
  {
    var l' := InsertAt(l, j, pid);
    forall a | 0 <= a < |l'|
      ensures l'[a] == if a < j then l[a] else if a == j then pid else l[a - 1]
    {
    }
    forall a, b | 0 <= a < b < |l'|
      ensures v[l'[a]] >= v[l'[b]]
    {
      if a == j && b > j + 1 {
        assert v[l[j]] >= v[l[b - 1]];
      }
    }
  }

  function Prios(k: Kernel): seq<int> { seq(|k.procs|, p requires 0 <= p < |k.procs| => k.procs[p].prio) }

  lemma InsertMembers(l: seq<int>, j: nat, pid: int)
    requires j <= |l|
    ensures forall a :: 0 <= a < |InsertAt(l, j, pid)| ==> InsertAt(l, j, pid)[a] == pid || InsertAt(l, j, pid)[a] in l
  {
    var l' := InsertAt(l, j, pid);
    forall a | 0 <= a < |l'|
      ensures l'[a] == pid || l'[a] in l
    {
      assert l'[a] == if a < j then l[a] else if a == j then pid else l[a - 1];
    }
  }

  lemma ReadyOrdered(k: Kernel, k': Kernel, pid: int)
    requires Queued(k) && Ordered(k) && 0 <= pid < |k.procs| && QueueOf(k, pid) == -1 && Changes(k, k', pid, ReadyQ(k))
    requires k'.key == k.key[pid := k.procs[pid].prio] && k'.procs[pid] == k.procs[pid].(state := PrReady)
    requires k'.q[ReadyQ(k)] == InsertAt(k.q[ReadyQ(k)], Place(k.q[ReadyQ(k)], k.key, k.procs[pid].prio), pid)
    ensures Ordered(k')
  {
    hide InsertAt, Place, Distinct;
    var l, l', j := k.q[ReadyQ(k)], k'.q[ReadyQ(k)], Place(k.q[ReadyQ(k)], k.key, k.procs[pid].prio);
    assert QueueOk(k, ReadyQ(k));
    PlaceIs(l, k.key, k.procs[pid].prio);
    assert Prios(k') == Prios(k);
    InsertDescending(l, Prios(k), j, pid);
    InsertMembers(l, j, pid);
    forall a, b | 0 <= a < b < |l'|
      ensures k'.procs[l'[a]].prio >= k'.procs[l'[b]].prio
    {
      assert Prios(k)[l'[a]] >= Prios(k)[l'[b]];
    }
  }

  // ---- ready and resched

  lemma MadeReadyOk(k: Kernel, pid: int, s: int)
    requires BaseBut(k, pid, s) && 0 <= pid < |k.procs| && k.procs[pid].state !in {PrFree, PrReady}
    requires k.procs[pid].state == PrWait ==> k.procs[pid].sem == s
    ensures BaseBut(MadeReady(k, pid), pid, s)
  {
    hide QueueOk, Ordered, Distinct, InsertAt, Without, Place;
    assert PrioOk(k, pid) && OnlyHere(k, pid);
    var off := SetState(OffQueue(k, pid), pid, PrSusp);
    LeaveQueued(k, off, pid);
    LeaveOrdered(k, off, pid);
    var k' := MadeReady(k, pid);
    JoinQueued(off, k', pid, ReadyQ(k), Place(off.q[ReadyQ(k)], off.key, k.procs[pid].prio));
    ReadyOrdered(off, k', pid);
    forall r | 0 <= r < |k'.sems| && r != s
      ensures SemOk(k', r)
    {
      assert SemOk(k, r);
    }
    forall p | 0 <= p < |k'.procs|
      ensures (p != pid ==> MailOk(k', p)) && PrioOk(k', p)
    {
      assert PrioOk(k, p) && (p != pid ==> MailOk(k, p));
      assert p != pid ==> k'.procs[p] == k.procs[p];
    }
  }

  /** The head of the ready list becomes current; the old current process is no longer that. */
  lemma SwitchOk(k: Kernel)
    requires Base(k) && k.procs[k.curr].state != PrCurr
    ensures k.q[ReadyQ(k)] != [] && Inv(Switch(k)) && Switch(k).curr == k.q[ReadyQ(k)][0]
  {
    assert BaseSpelledOut(k);
    assert PrioOk(k, NULLPROC) && OnlyHere(k, NULLPROC) && PrioOk(k, k.curr);
    var l, k' := k.q[ReadyQ(k)], Switch(k);
    assert NULLPROC in l;
    var pid := l[0];
    assert QueueOf(k, pid) == ReadyQ(k);
    assert Without(l, pid) == l[1..];
    LeaveQueued(k, k', pid);
    LeaveOrdered(k, k', pid);
    forall r | 0 <= r < |k'.sems|
      ensures SemOk(k', r)
    {
      assert SemOk(k, r);
    }
    forall p | 0 <= p < |k'.procs|
      ensures MailOk(k', p) && PrioOk(k', p)
    {
      assert PrioOk(k, p) && MailOk(k, p);
    }
    assert BaseCore(k');
    forall p | 0 <= p < |k'.procs| && k'.procs[p].state == PrReady
      ensures k'.procs[p].prio <= k'.procs[k'.curr].prio
    {
      assert OnlyHere(k, p);
      assert p in l;
      var b :| 0 <= b < |l| && l[b] == p;
    }
  }

  /** resched always finds a process, and after it no ready process has a higher priority than the
      current one. */
  lemma ReschedOk(k: Kernel)
    requires Base(k)
    ensures Inv(Resched(k))
  {
    assert BaseSpelledOut(k);
    var l, c := k.q[ReadyQ(k)], k.curr;
    if k.procs[c].state == PrCurr {
      if k.procs[c].prio > FirstKey(k) {
        forall p | 0 <= p < |k.procs| && k.procs[p].state == PrReady
          ensures k.procs[p].prio <= k.procs[c].prio
        {
          assert OnlyHere(k, p);
          var b :| 0 <= b < |l| && l[b] == p;
          assert k.procs[l[0]].prio >= k.procs[l[b]].prio;
        }
      } else {
        BaseTo(k, c, -1);
        MadeReadyOk(k, c, -1);
        assert MailOk(k, c) && PrioOk(k, c);
        var k1 := MadeReady(k, c);
        BaseFrom(k1, c, -1);
        SwitchOk(k1);
      }
    } else {
      SwitchOk(k);
    }
  }
}
