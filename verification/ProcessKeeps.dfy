/** Every step keeps the invariant of the processes. */
module ProcessKeeps {
  import opened DistinctLists
  import opened ProcessSpec
  import opened ProcessSteps
  import opened ProcessCalls

  // ---- changes to one process

  /** What all changes to process pid have in common: the others, and the keys of the ready list,
      stay as they are. */
  ghost predicate Others(k: Kernel, k': Kernel, pid: int, s: int) {
    && Sized(k) && Sized(k') && |k'.procs| == |k.procs| && |k'.sems| == |k.sems| && 0 <= pid < |k.procs| && k'.curr == k.curr
    && k'.procs == k.procs[pid := k'.procs[pid]] && k'.procs[pid].prio == k.procs[pid].prio
    && (forall p :: 0 <= p < |k.procs| && p != pid ==> k'.pend[p] == k.pend[p] && k'.log[p] == k.log[p])
    && (forall p :: 0 <= p < |k.procs| && k.procs[p].state == PrReady ==> k'.key[p] == k.key[p])
    && (forall r :: 0 <= r < |k.sems| && r != s ==> k'.sems[r] == k.sems[r])
  }

  lemma OthersKeep(k: Kernel, k': Kernel, pid: int, s: int, i: int)
    requires BaseBut(k, pid, s) && Others(k, k', pid, s) && Changes(k, k', pid, i) && PrioOk(k', pid) && Queued(k') && Ordered(k')
    requires i == s || i == ReadyQ(k) || i == SleepQ(k) || i == -1
    ensures BaseBut(k', pid, s)
  {
    forall r | 0 <= r < |k'.sems| && r != s
      ensures SemOk(k', r)
    {
      assert SemOk(k, r);
    }
    forall p | 0 <= p < |k'.procs|
      ensures (p != pid ==> MailOk(k', p)) && PrioOk(k', p)
    {
      if p != pid {
        assert MailOk(k, p) && PrioOk(k, p);
      }
    }
  }

  lemma SameOrdered(k: Kernel, k': Kernel, pid: int)
    requires Queued(k) && Ordered(k) && Sized(k') && |k'.procs| == |k.procs| && |k'.sems| == |k.sems| && 0 <= pid < |k.procs|
    requires k'.procs == k.procs[pid := k'.procs[pid]] && k'.procs[pid].prio == k.procs[pid].prio
    requires k'.q[ReadyQ(k)] == k.q[ReadyQ(k)] && forall p :: 0 <= p < |k.procs| && k.procs[p].state == PrReady ==> k'.key[p] == k.key[p]
    ensures Ordered(k')
  {
    Members(k);
  }

  /** The process was on no queue, and joins one that is not the ready list. */
  lemma Joined(k: Kernel, k': Kernel, pid: int, s: int, i: int, j: nat)
    requires BaseBut(k, pid, s) && Others(k, k', pid, s) && Changes(k, k', pid, i) && PrioOk(k', pid)
    requires QueueOf(k, pid) == -1 && 0 <= i < |k.q| && i != ReadyQ(k) && (i == s || i == SleepQ(k))
    requires j <= |k.q[i]| && k'.q[i] == InsertAt(k.q[i], j, pid) && QueueOf(k', pid) == i && (k'.procs[pid].state == PrWait ==> i == s < |k.sems|)
    ensures BaseBut(k', pid, s)
  {
    JoinQueued(k, k', pid, i, j);
    SameOrdered(k, k', pid);
    OthersKeep(k, k', pid, s, i);
  }

  lemma Rekeyed(k: Kernel, k': Kernel)
    requires Queued(k) && Ordered(k) && k' == k.(key := k'.key) && |k'.key| == |k.key|
    requires forall p :: 0 <= p < |k.procs| && k.procs[p].state == PrReady ==> k'.key[p] == k.key[p]
    ensures Ordered(k')
  {
    Members(k);
  }

  /** The process leaves the queue it was on, if any, and is on none. */
  lemma Left(k: Kernel, k': Kernel, pid: int, s: int)
    requires BaseBut(k, pid, s) && Others(k, k', pid, s) && 0 <= pid < |k.procs| && Changes(k, k', pid, QueueOf(k, pid)) && PrioOk(k', pid)
    requires 0 <= QueueOf(k, pid) < |k.q| ==> k'.q[QueueOf(k, pid)] == Without(k.q[QueueOf(k, pid)], pid)
    requires QueueOf(k', pid) == -1 && k'.procs[pid].state != PrWait && (k.procs[pid].state == PrWait ==> k.procs[pid].sem == s)
    ensures BaseBut(k', pid, s)
  {
    LeaveQueued(k, k', pid);
    assert OnlyHere(k, pid);
    var l, l' := k.q[ReadyQ(k)], k'.q[ReadyQ(k)];
    if QueueOf(k, pid) == ReadyQ(k) {
      LeaveOrdered(k, k'.(key := k.key), pid);
      LeaveQueued(k, k'.(key := k.key), pid);
      Rekeyed(k'.(key := k.key), k');
    } else {
      SameOrdered(k, k', pid);
    }
    OthersKeep(k, k', pid, s, QueueOf(k, pid));
  }

  /** The process is on no queue before or after. */
  lemma Stays(k: Kernel, k': Kernel, pid: int, s: int)
    requires BaseBut(k, pid, s) && Others(k, k', pid, s) && Changes(k, k', pid, -1) && PrioOk(k', pid)
    requires QueueOf(k', pid) == QueueOf(k, pid) && (k'.procs[pid].state == PrWait ==> k'.procs[pid].sem == k.procs[pid].sem && k.procs[pid].state == PrWait)
    ensures BaseBut(k', pid, s)
  {
    forall r | 0 <= r < |k'.q|
      ensures QueueOk(k', r)
    {
      assert QueueOk(k, r);
      forall a | 0 <= a < |k.q[r]|
        ensures 0 <= k.q[r][a] < |k'.procs| && QueueOf(k', k.q[r][a]) == r
      {
      }
    }
    forall p | 0 <= p < |k'.procs|
      ensures OnlyHere(k', p)
    {
      assert OnlyHere(k, p);
    }
    SameOrdered(k, k', pid);
    OthersKeep(k, k', pid, s, -1);
  }

  // ---- semaphores

  lemma CountBut(k: Kernel, pid: int, s: int, c: int)
    requires BaseBut(k, pid, s) && 0 <= s < |k.sems| && 0 <= pid < |k.procs|
    ensures BaseBut(Count(k, s, c), pid, s)
  {
    assert PrioOk(k, pid);
    Stays(k, Count(k, s, c), pid, s);
  }

  lemma WaitOk(k: Kernel, s: int)
    requires Inv(k) && k.pend[k.curr] == Nothing && k.curr != NULLPROC
    ensures Inv(WaitStep(k, s).0)
  {
    if !BadSem(k, s) {
      var c := k.curr;
      assert BaseSpelledOut(k);
      assert SemOk(k, s) && MailOk(k, c) && PrioOk(k, c);
      BaseTo(k, c, s);
      var k1 := Count(k, s, k.sems[s].count - 1);
      CountBut(k, c, s, k.sems[s].count - 1);
      if k1.sems[s].count < 0 {
        var k2 := k1.(procs := k.procs[c := k.procs[c].(state := PrWait, sem := s)], q := k.q[s := k.q[s] + [c]]);
        assert InsertAt(k.q[s], |k.q[s]|, c) == k.q[s] + [c];
        Joined(k1, k2, c, s, s, |k.q[s]|);
        BaseFrom(k2, c, s);
        ReschedOk(k2);
      } else {
        BaseFrom(k1, c, s);
      }
    }
  }

  /** A signal leaves the semaphore as it should be, whoever waits. */
  lemma SignalledOk(k: Kernel, s: int)
    requires Base(k) && 0 <= s < |k.sems| && k.sems[s].used
    ensures Base(Signalled(k, s)) && |Signalled(k, s).sems| == |k.sems| && Signalled(k, s).sems[s].used
    ensures Signalled(k, s).sems[s].count == k.sems[s].count + 1
    ensures Signalled(k, s).curr == k.curr && (k.sems[s].count >= 0 ==> Signalled(k, s).procs == k.procs)
  {
    assert BaseSpelledOut(k);
    assert SemOk(k, s);
    var k1 := Count(k, s, k.sems[s].count + 1);
    if k.sems[s].count < 0 {
      var pid := k.q[s][0];
      assert QueueOk(k, s);
      assert MailOk(k, pid);
      BaseTo(k, pid, s);
      CountBut(k, pid, s, k.sems[s].count + 1);
      MadeReadyOk(k1, pid, s);
      assert Without(k.q[s], pid) == k.q[s][1..];
      BaseFrom(Signalled(k, s), pid, s);
    } else {
      var pid := k.curr;
      assert MailOk(k, pid);
      BaseTo(k, pid, s);
      CountBut(k, pid, s, k.sems[s].count + 1);
      BaseFrom(k1, pid, s);
    }
  }

  /** When nobody's state changes, the current process may go on. */
  lemma InvSame(k: Kernel, k': Kernel)
    requires Inv(k) && Base(k') && k'.procs == k.procs && k'.curr == k.curr
    ensures Inv(k')
  {
  }

  lemma SignalOk(k: Kernel, s: int)
    requires Inv(k)
    ensures Inv(SignalStep(k, s).0)
  {
    if !BadSem(k, s) {
      SignalledOk(k, s);
      if k.sems[s].count < 0 {
        ReschedOk(Signalled(k, s));
      } else {
        InvSame(k, Signalled(k, s));
      }
    }
  }

  lemma {:induction false} SignalledTimesOk(k: Kernel, s: int, n: nat)
    requires Base(k) && 0 <= s < |k.sems| && k.sems[s].used
    ensures var k' := SignalledTimes(k, s, n);
      Base(k') && k'.sems[s].used && k'.sems[s].count == k.sems[s].count + n && k'.curr == k.curr && (k.sems[s].count >= 0 ==> k'.procs == k.procs)
  {
    if n > 0 {
      SignalledTimesOk(k, s, n - 1);
      SignalledOk(SignalledTimes(k, s, n - 1), s);
    }
  }

  lemma SignalnOk(k: Kernel, s: int, count: int)
    requires Inv(k)
    ensures Inv(SignalnStep(k, s, count).0)
  {
    if !BadSem(k, s) && count >= 0 {
      SignalledTimesOk(k, s, count);
      var k1 := SignalledTimes(k, s, count);
      if k.sems[s].count < 0 && count > 0 {
        ReschedOk(k1);
      } else {
        assert count == 0 ==> k1 == k;
        InvSame(k, k1);
      }
    }
  }

  lemma FirstWaiter(k: Kernel, pid: int, s: int)
    requires BaseBut(k, pid, s) && 0 <= s < |k.sems| && k.q[s] != []
    ensures 0 <= k.q[s][0] < |k.procs| && k.procs[k.q[s][0]].state == PrWait && k.procs[k.q[s][0]].sem == s
  {
    assert QueueOk(k, s);
    assert OnlyHere(k, k.q[s][0]);
  }

  lemma AllReadyNone(k: Kernel, s: int)
    requires Base(k) && 0 <= s < |k.sems|
    ensures BaseBut(k, k.curr, s) && MailOk(k, k.curr) && k.q[s][0..] == k.q[s]
  {
    assert BaseSpelledOut(k);
    BaseTo(k, k.curr, s);
    assert MailOk(k, k.curr);
  }

  /** One waiter more is made ready. */
  lemma NextReady(k: Kernel, c: int, s: int)
    requires BaseBut(k, c, s) && 0 <= c < |k.procs| && MailOk(k, c) && 0 <= s < |k.sems| && k.q[s] != []
    ensures 0 <= k.q[s][0] < |k.procs|
    ensures var k' := MadeReady(k, k.q[s][0]); BaseBut(k', c, s) && MailOk(k', c) && k'.sems == k.sems && k'.curr == k.curr && k'.q[s] == k.q[s][1..]
  {
    hide Queued, Ordered, SemOk, Place;
    var pid := k.q[s][0];
    FirstWaiter(k, c, s);
    assert pid != c ==> MailOk(k, pid);
    AnyMail(k, c, pid, s);
    MadeReadyOk(k, pid, s);
    var k' := MadeReady(k, pid);
    assert Without(k.q[s], pid) == k.q[s][1..];
    assert MailOk(k', pid);
    AnyMail(k', pid, c, s);
  }

  /** Everything but the semaphore itself. */
  lemma {:induction false} AllReadyOk(k: Kernel, s: int, n: nat)
    requires Base(k) && 0 <= s < |k.sems| && n <= |k.q[s]|
    ensures var k' := AllReady(k, s, n);
      && BaseBut(k', k.curr, s) && MailOk(k', k.curr) && k'.sems == k.sems && k'.curr == k.curr && k'.q[s] == k.q[s][n..]
      && (n == 0 ==> k' == k)
  {
    hide BaseBut, MailOk, MadeReady;
    if n == 0 {
      AllReadyNone(k, s);
    } else {
      AllReadyOk(k, s, n - 1);
      var k1 := AllReady(k, s, n - 1);
      NextReady(k1, k.curr, s);
    }
  }

  /** The exception for one process's mailbox can be moved to another. */
  lemma AnyMail(k: Kernel, p: int, p': int, s: int)
    requires BaseBut(k, p, s) && 0 <= p < |k.procs| && MailOk(k, p) && 0 <= p' < |k.procs|
    ensures BaseBut(k, p', s) && MailOk(k, p')
  {
    forall r | 0 <= r < |k.procs|
      ensures (r != p' ==> MailOk(k, r)) && PrioOk(k, r)
    {
      assert PrioOk(k, r);
    }
    assert PrioOk(k, p');
  }

  lemma ClearBase(k: Kernel, s: int, m: Sem)
    requires Base(k) && 0 <= s < |k.sems| && (m.used ==> m.count >= 0)
    ensures var k1 := AllReady(k, s, |k.q[s]|); Base(k1.(sems := k1.sems[s := m])) && k1.curr == k.curr && (k.q[s] == [] ==> k1 == k)
  {
    var k1, c := AllReady(k, s, |k.q[s]|), k.curr;
    AllReadyOk(k, s, |k.q[s]|);
    var k2 := k1.(sems := k1.sems[s := m]);
    assert PrioOk(k1, c);
    Stays(k1, k2, c, s);
    assert MailOk(k2, c) && SemOk(k2, s);
    BaseFrom(k2, c, s);
  }

  lemma ClearOk(k: Kernel, s: int, m: Sem)
    requires Inv(k) && 0 <= s < |k.sems| && (m.used ==> m.count >= 0)
    ensures var k1 := AllReady(k, s, |k.q[s]|);
      var k2 := k1.(sems := k1.sems[s := m]);
      Inv(if k.q[s] != [] then Resched(k2) else k2)
  {
    ClearBase(k, s, m);
    var k1 := AllReady(k, s, |k.q[s]|);
    var k2 := k1.(sems := k1.sems[s := m]);
    if k.q[s] != [] {
      ReschedOk(k2);
    } else {
      InvSame(k, k2);
    }
  }

  lemma SemcreateOk(k: Kernel, count: int)
    requires Inv(k)
    ensures Inv(SemcreateStep(k, count).0)
  {
    var s := FindSem(k.sems, k.nextsem, |k.sems|);
    if count >= 0 && s != -1 {
      var k', c := SemcreateStep(k, count).0, k.curr;
      assert BaseSpelledOut(k);
      assert SemOk(k, s) && MailOk(k, c) && PrioOk(k, c);
      BaseTo(k, c, s);
      Stays(k, k', c, s);
      BaseFrom(k', c, s);
      InvSame(k, k');
    }
  }

  // ---- sleeping

  lemma AsleepOk(k: Kernel, pid: int, d: int, state: PrState)
    requires BaseBut(k, pid, -1) && pid == k.curr && pid != NULLPROC && k.procs[pid].state == PrCurr && state in {PrSleep, PrRectim}
    ensures BaseBut(Asleep(k, pid, d, state), pid, -1)
  {
    var k', l := Asleep(k, pid, d, state), k.q[SleepQ(k)];
    assert QueueOk(k, SleepQ(k));
    assert PrioOk(k, pid);
    Joined(k, k', pid, -1, SleepQ(k), DeltaPlace(l, k.key, d).0);
  }

  lemma UnsleptOk(k: Kernel, pid: int, s: int)
    requires BaseBut(k, pid, s) && 0 <= pid < |k.procs|
    ensures BaseBut(Unslept(k, pid), pid, s) && Unslept(k, pid) == k.(key := Unslept(k, pid).key) && |Unslept(k, pid).key| == |k.key|
  {
    assert QueueOk(k, SleepQ(k));
    assert PrioOk(k, pid);
    Stays(k, Unslept(k, pid), pid, s);
  }

  lemma SleepBase(k: Kernel, d: int)
    requires Inv(k) && k.pend[k.curr] == Nothing && k.curr != NULLPROC
    ensures Base(Asleep(k, k.curr, d, PrSleep))
  {
    var c := k.curr;
    assert BaseSpelledOut(k);
    assert MailOk(k, c);
    BaseTo(k, c, -1);
    AsleepOk(k, c, d, PrSleep);
    BaseFrom(Asleep(k, c, d, PrSleep), c, -1);
  }

  lemma SleepOk(k: Kernel, delay: int)
    requires Inv(k) && k.pend[k.curr] == Nothing && (delay != 0 ==> k.curr != NULLPROC)
    ensures Inv(SleepStep(k, delay).0)
  {
    if delay == 0 {
      ReschedOk(k);
    } else {
      var d := Int32(delay);
      SleepBase(k, d);
      ReschedOk(Asleep(k, k.curr, d, PrSleep));
    }
  }

  // ---- messages

  lemma TookOk(k: Kernel)
    requires Inv(k) && k.procs[k.curr].hasmsg
    ensures Inv(Took(k).0)
  {
    var c, k' := k.curr, Took(k).0;
    assert BaseSpelledOut(k);
    assert MailOk(k, c) && PrioOk(k, c);
    BaseTo(k, c, -1);
    Stays(k, k', c, -1);
    assert k'.log[c].sent == k'.log[c].got + [];
    BaseFrom(k', c, -1);
    TopSame(k, k', c);
  }

  lemma TopSame(k: Kernel, k': Kernel, pid: int)
    requires Inv(k) && Base(k') && |k'.procs| == |k.procs| && k'.curr == k.curr && 0 <= pid < |k.procs|
    requires k'.procs == k.procs[pid := k'.procs[pid]] && k'.procs[pid].prio == k.procs[pid].prio
    requires (k'.procs[pid].state == PrReady ==> k.procs[pid].state == PrReady) && k'.procs[k.curr].state == PrCurr
    ensures Inv(k')
  {
  }

  lemma DeliveredOk(k: Kernel, pid: int, msg: int)
    requires Inv(k) && !BadPid(k, pid) && !k.procs[pid].hasmsg
    ensures BaseBut(Delivered(k, pid, msg), pid, -1)
    ensures var k' := Delivered(k, pid, msg); k'.log[pid].sent == k'.log[pid].got + [msg]
  {
    assert BaseSpelledOut(k);
    assert MailOk(k, pid) && PrioOk(k, pid);
    BaseTo(k, pid, -1);
    Stays(k, Delivered(k, pid, msg), pid, -1);
  }

  /** A receiver that waits can be made ready once it has its message. */
  lemma SendBase(k: Kernel, pid: int, msg: int)
    requires Inv(k) && !BadPid(k, pid) && !k.procs[pid].hasmsg
    ensures var k1 := Delivered(k, pid, msg);
      && (k.procs[pid].state == PrRecv ==> Base(MadeReady(k1, pid)))
      && (k.procs[pid].state == PrRectim ==> Base(MadeReady(Unslept(k1, pid), pid)))
      && (k.procs[pid].state !in {PrRecv, PrRectim} ==> Base(k1))
  {
    var k1, state := Delivered(k, pid, msg), k.procs[pid].state;
    DeliveredOk(k, pid, msg);
    assert BaseSpelledOut(k);
    assert MailOk(k, pid);
    if state == PrRecv {
      MadeReadyOk(k1, pid, -1);
      BaseFrom(MadeReady(k1, pid), pid, -1);
    } else if state == PrRectim {
      UnsleptOk(k1, pid, -1);
      MadeReadyOk(Unslept(k1, pid), pid, -1);
      BaseFrom(MadeReady(Unslept(k1, pid), pid), pid, -1);
    } else {
      BaseFrom(k1, pid, -1);
    }
  }

  lemma SendOk(k: Kernel, pid: int, msg: int)
    requires Inv(k)
    ensures Inv(SendStep(k, pid, msg).0)
  {
    if !BadPid(k, pid) && !k.procs[pid].hasmsg {
      var k1, state := Delivered(k, pid, msg), k.procs[pid].state;
      SendBase(k, pid, msg);
      if state == PrRecv {
        ReschedOk(MadeReady(k1, pid));
      } else if state == PrRectim {
        ReschedOk(MadeReady(Unslept(k1, pid), pid));
      } else {
        TopSame(k, k1, pid);
      }
    }
  }

  lemma ReceiveBase(k: Kernel)
    requires Inv(k) && k.pend[k.curr] == Nothing && k.curr != NULLPROC && !k.procs[k.curr].hasmsg
    ensures Base(SetState(k.(pend := k.pend[k.curr := InReceive]), k.curr, PrRecv))
  {
    var c := k.curr;
    assert BaseSpelledOut(k);
    assert MailOk(k, c) && PrioOk(k, c);
    BaseTo(k, c, -1);
    var k1 := SetState(k.(pend := k.pend[c := InReceive]), c, PrRecv);
    Stays(k, k1, c, -1);
    BaseFrom(k1, c, -1);
  }

  lemma ReceiveOk(k: Kernel)
    requires Inv(k) && k.pend[k.curr] == Nothing && k.curr != NULLPROC
    ensures Inv(ReceiveStep(k).0)
  {
    var c := k.curr;
    if k.procs[c].hasmsg {
      TookOk(k);
    } else {
      ReceiveBase(k);
      ReschedOk(SetState(k.(pend := k.pend[c := InReceive]), c, PrRecv));
    }
  }

  lemma RecvtimeBase(k: Kernel, maxwait: int)
    requires Inv(k) && k.pend[k.curr] == Nothing && k.curr != NULLPROC && !k.procs[k.curr].hasmsg
    ensures Base(Asleep(k.(pend := k.pend[k.curr := InRecvtime]), k.curr, maxwait, PrRectim))
  {
    var c := k.curr;
    assert BaseSpelledOut(k);
    assert MailOk(k, c) && PrioOk(k, c);
    BaseTo(k, c, -1);
    var k1 := k.(pend := k.pend[c := InRecvtime]);
    Stays(k, k1, c, -1);
    AsleepOk(k1, c, maxwait, PrRectim);
    BaseFrom(Asleep(k1, c, maxwait, PrRectim), c, -1);
  }

  lemma RecvtimeOk(k: Kernel, maxwait: int)
    requires Inv(k) && k.pend[k.curr] == Nothing && k.curr != NULLPROC
    ensures Inv(RecvtimeStep(k, maxwait).0)
  {
    var c := k.curr;
    if maxwait >= 0 {
      if k.procs[c].hasmsg {
        TookOk(k);
      } else {
        RecvtimeBase(k, maxwait);
        ReschedOk(Asleep(k.(pend := k.pend[c := InRecvtime]), c, maxwait, PrRectim));
      }
    }
  }

  // ---- processes

  lemma SuspendBase(k: Kernel, pid: int)
    requires Inv(k) && !BadPid(k, pid) && pid != NULLPROC && k.procs[pid].state in {PrCurr, PrReady}
    ensures Base(SetState(OffQueue(k, pid), pid, PrSusp))
  {
    assert BaseSpelledOut(k);
    assert MailOk(k, pid) && PrioOk(k, pid);
    BaseTo(k, pid, -1);
    var k1 := SetState(OffQueue(k, pid), pid, PrSusp);
    Left(k, k1, pid, -1);
    BaseFrom(k1, pid, -1);
  }

  lemma SuspendOk(k: Kernel, pid: int)
    requires Inv(k)
    ensures Inv(SuspendStep(k, pid).0)
  {
    if !BadPid(k, pid) && pid != NULLPROC && k.procs[pid].state in {PrCurr, PrReady} {
      SuspendBase(k, pid);
      var k1 := SetState(OffQueue(k, pid), pid, PrSusp);
      if k.procs[pid].state == PrReady {
        TopSame(k, k1, pid);
      } else {
        ReschedOk(k1);
      }
    }
  }

  lemma ResumeBase(k: Kernel, pid: int)
    requires Inv(k) && !BadPid(k, pid) && k.procs[pid].state == PrSusp
    ensures Base(MadeReady(k, pid)) && k.procs[pid].prio > MINKEY
  {
    assert BaseSpelledOut(k);
    assert MailOk(k, pid) && PrioOk(k, pid);
    BaseTo(k, pid, -1);
    MadeReadyOk(k, pid, -1);
    BaseFrom(MadeReady(k, pid), pid, -1);
  }

  lemma ResumeOk(k: Kernel, pid: int)
    requires Inv(k)
    ensures Inv(ResumeStep(k, pid).0)
  {
    if !BadPid(k, pid) && k.procs[pid].state == PrSusp {
      ResumeBase(k, pid);
      ReschedOk(MadeReady(k, pid));
    }
  }

  /** A waiter that goes gives its place back: the count and the queue still agree. */
  lemma KillWaiter(k: Kernel, pid: int)
    requires Inv(k) && 0 <= pid < |k.procs| && k.procs[pid].state == PrWait
    ensures Inv(KillStep(k, pid).0)
  {
    hide Ordered, Without;
    var s := k.procs[pid].sem;
    assert BaseSpelledOut(k);
    assert OnlyHere(k, pid) && MailOk(k, pid) && PrioOk(k, pid) && SemOk(k, s) && QueueOk(k, s);
    BaseTo(k, pid, s);
    var k1 := Count(k, s, k.sems[s].count + 1);
    CountBut(k, pid, s, k.sems[s].count + 1);
    var k2 := SetState(OffQueue(k1, pid), pid, PrFree);
    Left(k1, k2, pid, s);
    assert SemOk(k2, s) by {
      WithoutIs(k.q[s], pid);
    }
    BaseFrom(k2, pid, s);
    TopSame(k, k2, pid);
  }

  lemma KillOk(k: Kernel, pid: int)
    requires Inv(k)
    ensures Inv(KillStep(k, pid).0)
  {
    hide QueueOk;
    if !BadPid(k, pid) && pid != NULLPROC {
      if k.procs[pid].state == PrWait {
        KillWaiter(k, pid);
      } else {
        assert BaseSpelledOut(k);
        assert OnlyHere(k, pid) && MailOk(k, pid) && PrioOk(k, pid);
        BaseTo(k, pid, -1);
        var sleeper := k.procs[pid].state in {PrSleep, PrRectim};
        if sleeper {
          UnsleptOk(k, pid, -1);
        }
        var k1 := if sleeper then Unslept(k, pid) else k;
        var k2 := SetState(OffQueue(k1, pid), pid, PrFree);
        Left(k1, k2, pid, -1);
        BaseFrom(k2, pid, -1);
        if k.procs[pid].state == PrCurr {
          ReschedOk(k2);
        } else {
          TopSame(k, k2, pid);
        }
      }
    }
  }

  lemma CreateOk(k: Kernel, pid: int, prio: int)
    requires Inv(k) && 0 <= pid < |k.procs| && k.procs[pid].state == PrFree
    ensures Inv(CreateStep(k, pid, prio).0)
  {
    if prio >= 1 {
      assert BaseSpelledOut(k);
      assert MailOk(k, pid) && PrioOk(k, pid) && QueueOk(k, ReadyQ(k));
      BaseTo(k, pid, -1);
      var k1 := k.(procs := k.procs[pid := k.procs[pid].(prio := prio)]);
      Reprioritized(k, k1, pid);
      var k' := CreateStep(k, pid, prio).0;
      Stays(k1, k', pid, -1);
      BaseFrom(k', pid, -1);
    }
  }

  /** The priority of a free process entry does not matter. */
  lemma Reprioritized(k: Kernel, k1: Kernel, pid: int)
    requires BaseBut(k, pid, -1) && 0 <= pid < |k.procs| && k.procs[pid].state == PrFree && pid != NULLPROC
    requires |k1.procs| == |k.procs| && k1 == k.(procs := k.procs[pid := k.procs[pid].(prio := k1.procs[pid].prio)])
    ensures BaseBut(k1, pid, -1)
  {
    assert QueueOk(k, ReadyQ(k));
    forall r | 0 <= r < |k1.q|
      ensures QueueOk(k1, r)
    {
      assert QueueOk(k, r);
    }
    forall p | 0 <= p < |k1.procs|
      ensures OnlyHere(k1, p) && (p != pid ==> MailOk(k1, p)) && PrioOk(k1, p)
    {
      assert OnlyHere(k, p) && PrioOk(k, p) && (p != pid ==> MailOk(k, p));
    }
    forall r | 0 <= r < |k1.sems|
      ensures SemOk(k1, r)
    {
      assert SemOk(k, r);
    }
  }

  // ---- the clock

  lemma WokenOk(k: Kernel)
    requires Base(k)
    ensures Base(Woken(k)) && Woken(k).curr == k.curr && Woken(k).pend == k.pend
    ensures k.procs[k.curr].state == PrCurr ==> Woken(k).procs[k.curr] == k.procs[k.curr]
    ensures Woken(k).q[SleepQ(k)] == if k.q[SleepQ(k)] == [] then [] else k.q[SleepQ(k)][1..]
  {
    var l := k.q[SleepQ(k)];
    assert BaseSpelledOut(k);
    Members(k);
    assert QueueOk(k, SleepQ(k));
    if l != [] {
      var pid := l[0];
      assert PrioOk(k, pid) && MailOk(k, pid) && PrioOk(k, k.curr);
      BaseTo(k, pid, -1);
      MadeReadyOk(k, pid, -1);
      assert Without(l, pid) == l[1..];
      BaseFrom(Woken(k), pid, -1);
    }
  }

  lemma {:induction false} WokenTimesOk(k: Kernel, n: nat)
    requires Base(k) && n <= |k.q[SleepQ(k)]|
    ensures var k' := WokenTimes(k, n);
      Base(k') && k'.curr == k.curr && (k.procs[k.curr].state == PrCurr ==> k'.procs[k.curr] == k.procs[k.curr]) && k'.pend == k.pend && k'.q[SleepQ(k)] == k.q[SleepQ(k)][n..] && (n == 0 ==> k' == k)
  {
    if n > 0 {
      WokenTimesOk(k, n - 1);
      WokenOk(WokenTimes(k, n - 1));
    }
  }

  lemma SlicedOk(k: Kernel)
    requires Inv(k)
    ensures Inv(Sliced(k))
  {
    var k1, k2 := k.(preempt := QUANTUM), k.(preempt := k.preempt - 1);
    if k.preempt - 1 <= 0 {
      PreemptBase(k, QUANTUM);
      ReschedOk(k1);
    } else {
      PreemptBase(k, k.preempt - 1);
      InvSame(k, k2);
    }
  }

  lemma PreemptBase(k: Kernel, preempt: int)
    requires Base(k) && preempt > 0
    ensures Base(k.(preempt := preempt))
  {
    var c := k.curr;
    assert BaseSpelledOut(k);
    assert MailOk(k, c) && PrioOk(k, c);
    BaseTo(k, c, -1);
    Stays(k, k.(preempt := preempt), c, -1);
    BaseFrom(k.(preempt := preempt), c, -1);
  }

  lemma PendOk(k: Kernel, pid: int, pend: Pending)
    requires Inv(k) && 0 <= pid < |k.procs| && k.pend[pid] in {Nothing, InRecvtime, InTick}
    requires k.procs[pid].state in {PrCurr, PrReady, PrSusp} && pend in {Nothing, InTick}
    ensures Inv(k.(pend := k.pend[pid := pend]))
  {
    var k' := k.(pend := k.pend[pid := pend]);
    assert BaseSpelledOut(k);
    assert MailOk(k, pid) && PrioOk(k, pid);
    BaseTo(k, pid, -1);
    Stays(k, k', pid, -1);
    BaseFrom(k', pid, -1);
    InvSame(k, k');
  }

  lemma TickedOk(k: Kernel)
    requires Inv(k)
    ensures var k' := Ticked(k); Base(k') && k'.procs[k.curr] == k.procs[k.curr] && k'.pend == k.pend
    ensures |Ticked(k).q[SleepQ(k)]| >= |k.q[SleepQ(k)]| ==> Ticked(k).procs == k.procs
  {
    hide Ordered, Distinct, WokenTimes, Due;
    var l, c := k.q[SleepQ(k)], k.curr;
    var k1 := k.(now := k.now + 1);
    assert BaseSpelledOut(k);
    assert QueueOk(k, SleepQ(k)) && MailOk(k, c) && PrioOk(k, c);
    var k2 := if l == [] then k1 else k1.(key := k.key[l[0] := Int32(k.key[l[0]] - 1)]);
    BaseTo(k, c, -1);
    Stays(k, k2, c, -1);
    BaseFrom(k2, c, -1);
    if l != [] {
      WokenTimesOk(k2, Due(l, k2.key));
    }
  }

  lemma TickOk(k: Kernel)
    requires Inv(k) && k.pend[k.curr] == Nothing
    ensures Inv(TickStep(k).0)
  {
    var k1, c := Ticked(k), k.curr;
    TickedOk(k);
    if |k1.q[SleepQ(k)]| < |k.q[SleepQ(k)]| {
      ReschedOk(k1);
      PreemptedIs(k1);
    } else {
      assert BaseSpelledOut(k1);
      InvSame(k, k1);
    }
    var k2 := if |k1.q[SleepQ(k)]| < |k.q[SleepQ(k)]| then Resched(k1) else k1;
    if k2.curr == c {
      SlicedOk(k2);
    } else {
      PendOk(k2, c, InTick);
    }
  }

  /** A current process that is switched away from is ready. */
  lemma PreemptedIs(k: Kernel)
    requires Base(k) && k.procs[k.curr].state == PrCurr
    ensures Resched(k).procs[k.curr].state in {PrCurr, PrReady} && Resched(k).pend == k.pend
  {
    assert BaseSpelledOut(k);
    assert QueueOk(k, ReadyQ(k));
    ReschedOk(k);
  }

  lemma FinishOk(k: Kernel)
    requires Inv(k) && k.pend[k.curr] != Nothing
    ensures Inv(FinishStep(k).0)
    ensures k.pend[k.curr] == InReceive ==> FinishStep(k).1 == Value(k.procs[k.curr].msg) && k.procs[k.curr].hasmsg
  {
    var c := k.curr;
    assert BaseSpelledOut(k);
    assert MailOk(k, c);
    match k.pend[c]
    case InReceive => TookOk(k);
    case InRecvtime =>
      if k.procs[c].hasmsg {
        TookOk(k);
      } else {
        PendOk(k, c, Nothing);
      }
    case InTick =>
      PendOk(k, c, Nothing);
      SlicedOk(k.(pend := k.pend[c := Nothing]));
  }

  /** No step breaks the invariant. */
  lemma StepKeeps(k: Kernel, e: Event)
    requires Inv(k) && Enabled(k, e)
    ensures Inv(Step(k, e).0)
  {
    hide WaitStep, SignalStep, SignalnStep, SemcreateStep, SendStep, ReceiveStep, RecvtimeStep, SuspendStep, ResumeStep, SleepStep, KillStep, CreateStep, TickStep, FinishStep, Resched, MadeReady, AllReady;
    match e
    case Wait(s) => WaitOk(k, s);
    case Signal(s) => SignalOk(k, s);
    case Signaln(s, count) => SignalnOk(k, s, count);
    case Semcreate(count) => SemcreateOk(k, count);
    case Semdelete(s) =>
      if !BadSem(k, s) {
        ClearOk(k, s, Sem(false, if k.sems[s].count < 0 then 1 else k.sems[s].count + 1));
      }
    case Semreset(s, count) =>
      if count >= 0 && !BadSem(k, s) {
        AllReadyOk(k, s, |k.q[s]|) by {
          assert BaseSpelledOut(k);
        }
        ClearOk(k, s, Sem(true, count));
      }
    case Send(pid, msg) => SendOk(k, pid, msg);
    case Receive => ReceiveOk(k);
    case Recvtime(maxwait) => RecvtimeOk(k, maxwait);
    case Recvclr =>
      if k.procs[k.curr].hasmsg {
        TookOk(k);
      }
    case Suspend(pid) => SuspendOk(k, pid);
    case Resume(pid) => ResumeOk(k, pid);
    case Yield => ReschedOk(k);
    case Sleepms(delay) => SleepOk(k, delay);
    case Kill(pid) => KillOk(k, pid);
    case Create(pid, prio) => CreateOk(k, pid, prio);
    case Tick => TickOk(k);
    case Finish => FinishOk(k);
  }
}
