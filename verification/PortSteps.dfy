/** Every atomic step of the port system keeps its invariant. */
module PortSteps {
  import opened DistinctLists
  import opened PortSpec

  // ---- one port at a time

  /** Nothing changes for the processes busy with ports other than p. */
  ghost predicate AgreeOff(acts: map<int, Act>, acts': map<int, Act>, p: int) {
    && (forall q :: q in acts && acts[q].port != p ==> q in acts' && acts'[q] == acts[q])
    && (forall q :: q in acts' && acts'[q].port != p ==> q in acts && acts[q] == acts'[q])
  }

  lemma PortFrame(o: Port, r: int, acts: map<int, Act>, acts': map<int, Act>, p: int)
    requires PortOk(o, r, acts, 0, 0) && AgreeOff(acts, acts', p) && r != p
    ensures PortOk(o, r, acts', 0, 0)
  {
    assert SendersOk(o, r, acts');
    assert ReceiversOk(o, r, acts');
    assert ClearersOk(o, r, acts');
  }

  lemma {:induction false} QueuedUpdate(ports: seq<Port>, p: int, o: Port)
    requires 0 <= p < |ports|
    ensures Queued(ports[p := o]) == Queued(ports) - |ports[p].queue| + |o.queue|
  {
    var n := |ports| - 1;
    if p < n {
      assert ports[p := o][..n] == ports[..n][p := o];
      QueuedUpdate(ports[..n], p, o);
    } else {
      assert ports[p := o][..n] == ports[..n];
    }
  }

  /** A step that changes port p and the processes busy with it. */
  lemma OnePort(s: Sys, s': Sys, p: int, total: nat)
    requires Inv(s, total) && 0 <= p < |s.ports| == |s'.ports| && s'.ports == s.ports[p := s'.ports[p]]
    requires AgreeOff(s.acts, s'.acts, p) && PortOk(s'.ports[p], p, s'.acts, 0, 0)
    requires 0 <= s'.nfree == s.nfree + |s.ports[p].queue| - |s'.ports[p].queue| && 0 <= s'.nextid < |s.ports|
    ensures Inv(s', total)
  {
    QueuedUpdate(s.ports, p, s'.ports[p]);
    forall r | 0 <= r < |s'.ports|
      ensures PortOk(s'.ports[r], r, s'.acts, 0, 0)
    {
      if r != p {
        assert s'.ports[r] == s.ports[r];
        PortFrame(s.ports[r], r, s.acts, s'.acts, p);
      }
    }
  }

  lemma InitOk(nports: nat, maxmsgs: nat)
    requires nports > 0
    ensures Inv(Init(nports, maxmsgs), maxmsgs)
  {
    NothingQueued(Init(nports, maxmsgs).ports);
  }

  lemma {:induction false} NothingQueued(ports: seq<Port>)
    requires forall p :: 0 <= p < |ports| ==> ports[p].queue == []
    ensures Queued(ports) == 0
  {
    if ports != [] {
      NothingQueued(ports[..|ports| - 1]);
    }
  }

  // ---- ptsend and ptrecv

  lemma SignalOk(m: Sem)
    requires SemOk(m)
    ensures SemOk(Signal(m))
    ensures forall q :: q in Queue(m) <==> q in Queue(Signal(m)) || q in Woken(m)
    ensures forall q :: q in Woken(m) ==> q !in Queue(Signal(m))
    ensures m.Sem? ==> Max0(Signal(m).count) + |Woken(m)| == Max0(m.count) + 1
    ensures |SetOf(Woken(m))| == |Woken(m)|
  {
    if m.Sem? && m.count < 0 {
      assert m.queue == [m.queue[0]] + m.queue[1..];
      assert Woken(m) == [m.queue[0]];
      assert SetOf(Woken(m)) == {m.queue[0]};
    }
  }

  lemma DisjointCard(a: set<int>, out: seq<int>)
    requires forall q :: q in out ==> q !in a
    ensures |a + SetOf(out)| == |a| + |SetOf(out)|
  {
    var b := SetOf(out);
    forall q | q in b
      ensures q !in a
    {
      assert q in out;
    }
    assert a !! b;
  }

  /** Outside an epoch nobody counts as released. */
  lemma NoneReleased(o: Port, p: int, acts: map<int, Act>)
    requires o.state != Alloc && SendersOk(o, p, acts) && ReceiversOk(o, p, acts)
    ensures o.srel == {} && o.rrel == {}
  {
    assert forall q :: q !in o.srel;
    assert forall q :: q !in o.rrel;
  }

  lemma OneLess(a: set<int>, x: int)
    requires x in a
    ensures |a - {x}| == |a| - 1
  {
  }

  /** ptsend's second half, with one send under way. */
  lemma PutPort(s: Sys, p: int, msg: Msg)
    requires 0 <= p < |s.ports| && s.ports[p].state == Alloc && s.nfree > 0
    requires PortOk(s.ports[p], p, s.acts, 1, 0)
    ensures var s' := Put(s, p, msg).0;
      PortOk(s'.ports[p], p, s'.acts, 0, 0) && AgreeOff(s.acts, s'.acts, p)
  {
    hide SendersOk, ReceiversOk, Wake;
    var o, out := s.ports[p], Woken(s.ports[p].rsem);
    PutActs(s, p, msg);
    SignalOk(o.rsem);
    DisjointCard(o.rrel, out);
    assert o.log.sent + [msg] == o.log.rcvd + (o.queue + [msg]);
  }

  /** The processes at the port, after a message has been put there. */
  lemma PutActs(s: Sys, p: int, msg: Msg)
    requires 0 <= p < |s.ports| && s.ports[p].state == Alloc && s.nfree > 0
    requires SemOk(s.ports[p].rsem) && SendersOk(s.ports[p], p, s.acts) && ReceiversOk(s.ports[p], p, s.acts) && ClearersOk(s.ports[p], p, s.acts)
    ensures var s' := Put(s, p, msg).0;
      && SendersOk(s'.ports[p], p, s'.acts) && ReceiversOk(s'.ports[p], p, s'.acts) && ClearersOk(s'.ports[p], p, s'.acts)
      && AgreeOff(s.acts, s'.acts, p) && forall q :: q in Woken(s.ports[p].rsem) ==> q !in s.ports[p].rrel
  {
    hide SendersOk, ReceiversOk, ClearersOk, Wake, AgreeOff;
    var o := s.ports[p];
    var m, out := Signal(o.rsem), Woken(o.rsem);
    SignalOk(o.rsem);
    WakesReceivers(o, o.(queue := o.queue + [msg], rsem := m, rrel := o.rrel + SetOf(out), log := o.log.(sent := o.log.sent + [msg])), p, s.acts, out);
  }

  /** ptrecv's second half, with one receive under way: there is a message to take. */
  lemma GetPort(s: Sys, p: int)
    requires 0 <= p < |s.ports| && s.ports[p].state == Alloc
    requires PortOk(s.ports[p], p, s.acts, 0, 1)
    ensures Get(s, p).1 == Message(s.ports[p].queue[0])
    ensures var s' := Get(s, p).0;
      PortOk(s'.ports[p], p, s'.acts, 0, 0) && AgreeOff(s.acts, s'.acts, p)
  {
    hide SendersOk, ReceiversOk, Wake;
    var o, out := s.ports[p], Woken(s.ports[p].ssem);
    GetActs(s, p);
    SignalOk(o.ssem);
    DisjointCard(o.srel, out);
    assert o.log.rcvd + o.queue == (o.log.rcvd + [o.queue[0]]) + o.queue[1..];
  }

  /** The processes at the port, after a message has been taken. */
  lemma GetActs(s: Sys, p: int)
    requires 0 <= p < |s.ports| && s.ports[p].state == Alloc && s.ports[p].queue != []
    requires SemOk(s.ports[p].ssem) && SendersOk(s.ports[p], p, s.acts) && ReceiversOk(s.ports[p], p, s.acts) && ClearersOk(s.ports[p], p, s.acts)
    ensures var s' := Get(s, p).0;
      && SendersOk(s'.ports[p], p, s'.acts) && ReceiversOk(s'.ports[p], p, s'.acts) && ClearersOk(s'.ports[p], p, s'.acts)
      && AgreeOff(s.acts, s'.acts, p) && forall q :: q in Woken(s.ports[p].ssem) ==> q !in s.ports[p].srel
  {
    hide SendersOk, ReceiversOk, ClearersOk, Wake, AgreeOff;
    var o := s.ports[p];
    var m, out := Signal(o.ssem), Woken(o.ssem);
    SignalOk(o.ssem);
    WakesSenders(o, o.(queue := o.queue[1..], ssem := m, srel := o.srel + SetOf(out), log := o.log.(rcvd := o.log.rcvd + [o.queue[0]])), p, s.acts, out);
  }

  /** Some senders that waited are released. */
  lemma WakesSenders(o: Port, o': Port, p: int, acts: map<int, Act>, out: seq<int>)
    requires SendersOk(o, p, acts) && ReceiversOk(o, p, acts) && ClearersOk(o, p, acts) && o.state == Alloc
    requires o' == o.(queue := o'.queue, ssem := o'.ssem, srel := o.srel + SetOf(out), log := o'.log)
    requires forall q :: q in Queue(o.ssem) <==> q in Queue(o'.ssem) || q in out
    requires forall q :: q in out ==> q !in Queue(o'.ssem)
    ensures SendersOk(o', p, Wake(acts, out)) && ReceiversOk(o', p, Wake(acts, out)) && ClearersOk(o', p, Wake(acts, out))
    ensures AgreeOff(acts, Wake(acts, out), p) && forall q :: q in out ==> q !in o.srel
  {
  }

  /** Some receivers that waited are released. */
  lemma WakesReceivers(o: Port, o': Port, p: int, acts: map<int, Act>, out: seq<int>)
    requires SendersOk(o, p, acts) && ReceiversOk(o, p, acts) && ClearersOk(o, p, acts) && o.state == Alloc
    requires o' == o.(queue := o'.queue, rsem := o'.rsem, rrel := o.rrel + SetOf(out), log := o'.log)
    requires forall q :: q in Queue(o.rsem) <==> q in Queue(o'.rsem) || q in out
    requires forall q :: q in out ==> q !in Queue(o'.rsem)
    ensures SendersOk(o', p, Wake(acts, out)) && ReceiversOk(o', p, Wake(acts, out)) && ClearersOk(o', p, Wake(acts, out))
    ensures AgreeOff(acts, Wake(acts, out), p) && forall q :: q in out ==> q !in o.rrel
  {
  }

  lemma WaitOk(m: Sem, pid: int)
    requires SemOk(m) && m.Sem? && m.count <= 0 && pid !in m.queue
    ensures SemOk(Sem(m.count - 1, m.queue + [pid]))
  {
  }

  lemma SendBlocks(s: Sys, pid: int, p: int, msg: Msg, total: nat)
    requires Inv(s, total) && pid !in s.acts && SendCall(s, pid, p, msg).1 == Blocked
    ensures Inv(SendCall(s, pid, p, msg).0, total)
  {
    hide PortOk;
    WaitsPort(s.ports[p], p, s.acts, pid, msg);
    OnePort(s, SendCall(s, pid, p, msg).0, p, total);
  }

  /** A process that is not at any port yet waits for one of the semaphores. */
  lemma WaitsPort(o: Port, p: int, acts: map<int, Act>, pid: int, msg: Msg)
    requires PortOk(o, p, acts, 0, 0) && o.state == Alloc && pid !in acts
    ensures o.ssem.Sem? && o.ssem.count <= 0 ==>
              var acts' := acts[pid := Sender(p, o.epoch, msg, true)];
              PortOk(o.(ssem := Sem(o.ssem.count - 1, o.ssem.queue + [pid])), p, acts', 0, 0) && AgreeOff(acts, acts', p)
    ensures o.rsem.Sem? && o.rsem.count <= 0 ==>
              var acts' := acts[pid := Receiver(p, o.epoch, true)];
              PortOk(o.(rsem := Sem(o.rsem.count - 1, o.rsem.queue + [pid])), p, acts', 0, 0) && AgreeOff(acts, acts', p)
  {
    if o.ssem.Sem? && o.ssem.count <= 0 {
      SenderWaits(o, p, acts, pid, msg);
    }
    if o.rsem.Sem? && o.rsem.count <= 0 {
      ReceiverWaits(o, p, acts, pid);
    }
  }

  lemma SenderWaits(o: Port, p: int, acts: map<int, Act>, pid: int, msg: Msg)
    requires PortOk(o, p, acts, 0, 0) && o.state == Alloc && pid !in acts && o.ssem.Sem? && o.ssem.count <= 0
    ensures PortOk(o.(ssem := Sem(o.ssem.count - 1, o.ssem.queue + [pid])), p, acts[pid := Sender(p, o.epoch, msg, true)], 0, 0)
  {
    var o', acts' := o.(ssem := Sem(o.ssem.count - 1, o.ssem.queue + [pid])), acts[pid := Sender(p, o.epoch, msg, true)];
    WaitOk(o.ssem, pid);
    assert SendersOk(o', p, acts');
    assert ReceiversOk(o', p, acts');
  }

  lemma ReceiverWaits(o: Port, p: int, acts: map<int, Act>, pid: int)
    requires PortOk(o, p, acts, 0, 0) && o.state == Alloc && pid !in acts && o.rsem.Sem? && o.rsem.count <= 0
    ensures PortOk(o.(rsem := Sem(o.rsem.count - 1, o.rsem.queue + [pid])), p, acts[pid := Receiver(p, o.epoch, true)], 0, 0)
  {
    var o', acts' := o.(rsem := Sem(o.rsem.count - 1, o.rsem.queue + [pid])), acts[pid := Receiver(p, o.epoch, true)];
    WaitOk(o.rsem, pid);
    assert SendersOk(o', p, acts');
    assert ReceiversOk(o', p, acts');
  }

  /** A wait that does not block leaves one send, or one receive, under way. */
  lemma TokensTaken(o: Port, p: int, acts: map<int, Act>)
    requires PortOk(o, p, acts, 0, 0) && o.state == Alloc
    ensures o.ssem.Sem? && o.ssem.count > 0 ==> PortOk(o.(ssem := o.ssem.(count := o.ssem.count - 1)), p, acts, 1, 0)
    ensures o.rsem.Sem? && o.rsem.count > 0 ==> PortOk(o.(rsem := o.rsem.(count := o.rsem.count - 1)), p, acts, 0, 1)
  {
    if o.ssem.Sem? && o.ssem.count > 0 {
      assert SendersOk(o.(ssem := o.ssem.(count := o.ssem.count - 1)), p, acts);
    }
    if o.rsem.Sem? && o.rsem.count > 0 {
      assert ReceiversOk(o.(rsem := o.rsem.(count := o.rsem.count - 1)), p, acts);
    }
  }

  lemma SendPuts(s: Sys, pid: int, p: int, msg: Msg, total: nat)
    requires Inv(s, total) && pid !in s.acts && SendCall(s, pid, p, msg).1 == Ok
    ensures Inv(SendCall(s, pid, p, msg).0, total)
  {
    hide PortOk;
    var o := s.ports[p];
    var s1 := s.(ports := s.ports[p := o.(ssem := o.ssem.(count := o.ssem.count - 1))]);
    TokensTaken(o, p, s.acts);
    PutPort(s1, p, msg);
    OnePort(s, SendCall(s, pid, p, msg).0, p, total);
  }

  lemma SendCallOk(s: Sys, pid: int, p: int, msg: Msg, total: nat)
    requires Inv(s, total) && pid !in s.acts
    ensures SendCall(s, pid, p, msg).1 != Panic ==> Inv(SendCall(s, pid, p, msg).0, total)
  {
    if SendCall(s, pid, p, msg).1 == Blocked {
      SendBlocks(s, pid, p, msg, total);
    } else if SendCall(s, pid, p, msg).1 == Ok {
      SendPuts(s, pid, p, msg, total);
    }
  }

  lemma RecvBlocks(s: Sys, pid: int, p: int, total: nat)
    requires Inv(s, total) && pid !in s.acts && RecvCall(s, pid, p).1 == Blocked
    ensures Inv(RecvCall(s, pid, p).0, total)
  {
    hide PortOk;
    WaitsPort(s.ports[p], p, s.acts, pid, 0);
    OnePort(s, RecvCall(s, pid, p).0, p, total);
  }

  lemma RecvGets(s: Sys, pid: int, p: int, total: nat)
    requires Inv(s, total) && pid !in s.acts && RecvCall(s, pid, p).1 !in {SysErr, Blocked}
    ensures RecvCall(s, pid, p).1.Message? && Inv(RecvCall(s, pid, p).0, total)
  {
    hide PortOk;
    var o := s.ports[p];
    var s1 := s.(ports := s.ports[p := o.(rsem := o.rsem.(count := o.rsem.count - 1))]);
    TokensTaken(o, p, s.acts);
    GetPort(s1, p);
    OnePort(s, RecvCall(s, pid, p).0, p, total);
  }

  lemma RecvCallOk(s: Sys, pid: int, p: int, total: nat)
    requires Inv(s, total) && pid !in s.acts
    ensures RecvCall(s, pid, p).1 != Fault && Inv(RecvCall(s, pid, p).0, total)
  {
    if RecvCall(s, pid, p).1 == Blocked {
      RecvBlocks(s, pid, p, total);
    } else if RecvCall(s, pid, p).1 != SysErr {
      RecvGets(s, pid, p, total);
    }
  }

  lemma LatePort(o: Port, p: int, acts: map<int, Act>, pid: int)
    requires PortOk(o, p, acts, 0, 0) && pid in acts && !acts[pid].Clearer? && !acts[pid].blocked && acts[pid].port == p
    requires o.state != Alloc || o.epoch != acts[pid].epoch
    ensures PortOk(o, p, acts - {pid}, 0, 0)
  {
    assert SendersOk(o, p, acts - {pid});
    assert ReceiversOk(o, p, acts - {pid});
  }

  /** A released process that is not late has a send, or a receive, under way. */
  lemma ReleasedRuns(o: Port, p: int, acts: map<int, Act>, pid: int)
    requires PortOk(o, p, acts, 0, 0) && o.state == Alloc && pid in acts && !acts[pid].Clearer? && !acts[pid].blocked && acts[pid].port == p && acts[pid].epoch == o.epoch
    ensures acts[pid].Sender? ==> PortOk(o.(srel := o.srel - {pid}), p, acts - {pid}, 1, 0)
    ensures acts[pid].Receiver? ==> PortOk(o.(rrel := o.rrel - {pid}), p, acts - {pid}, 0, 1)
  {
    var o' := if acts[pid].Sender? then o.(srel := o.srel - {pid}) else o.(rrel := o.rrel - {pid});
    OneLess(if acts[pid].Sender? then o.srel else o.rrel, pid);
    assert SendersOk(o', p, acts - {pid});
    assert ReceiversOk(o', p, acts - {pid});
  }

  /** A process that is late, and finds out. */
  lemma LateOk(s: Sys, pid: int, total: nat)
    requires Inv(s, total) && CanResume(s, pid) && !s.acts[pid].Clearer?
    requires s.ports[s.acts[pid].port].state != Alloc || s.ports[s.acts[pid].port].epoch != s.acts[pid].epoch
    ensures Inv(s.(acts := s.acts - {pid}), total)
  {
    hide PortOk;
    var p, s' := s.acts[pid].port, s.(acts := s.acts - {pid});
    LatePort(s.ports[p], p, s.acts, pid);
    OnePort(s, s', p, total);
  }

  lemma SenderRuns(s: Sys, pid: int, total: nat)
    requires Inv(s, total) && CanResume(s, pid) && s.acts[pid].Sender?
    ensures ResumeStep(s, pid).1 != Panic ==> Inv(ResumeStep(s, pid).0, total)
  {
    hide PortOk;
    var a := s.acts[pid];
    var p, o := a.port, s.ports[a.port];
    if o.state != Alloc || o.epoch != a.epoch {
      LateOk(s, pid, total);
    } else if s.nfree > 0 {
      var s1 := s.(ports := s.ports[p := o.(srel := o.srel - {pid})], acts := s.acts - {pid});
      ReleasedRuns(o, p, s.acts, pid);
      PutPort(s1, p, a.msg);
      OnePort(s, Put(s1, p, a.msg).0, p, total);
    }
  }

  lemma ReceiverRuns(s: Sys, pid: int, total: nat)
    requires Inv(s, total) && CanResume(s, pid) && s.acts[pid].Receiver?
    ensures ResumeStep(s, pid).1 != Fault && Inv(ResumeStep(s, pid).0, total)
  {
    hide PortOk;
    var a := s.acts[pid];
    var p, o := a.port, s.ports[a.port];
    if o.state != Alloc || o.epoch != a.epoch {
      LateOk(s, pid, total);
    } else {
      var s1 := s.(ports := s.ports[p := o.(rrel := o.rrel - {pid})], acts := s.acts - {pid});
      ReleasedRuns(o, p, s.acts, pid);
      GetPort(s1, p);
      OnePort(s, Get(s1, p).0, p, total);
    }
  }

  // ---- creating and clearing

  lemma {:induction false} FindFreeIs(ports: seq<Port>, id: int, n: nat)
    requires 0 <= id < |ports|
    ensures var f := FindFree(ports, id, n); f == -1 || (0 <= f < |ports| && ports[f].state == Free)
    decreases n
  {
    if n > 0 && ports[id].state != Free {
      FindFreeIs(ports, if id + 1 >= |ports| then 0 else id + 1, n - 1);
    }
  }

  lemma CreatePort(o: Port, o': Port, p: int, acts: map<int, Act>, count: nat)
    requires PortOk(o, p, acts, 0, 0) && o.state == Free
    requires o' == o.(state := Alloc, epoch := o.epoch + 1, maxcnt := count % 65536, cap := count, queue := [], log := EMPTY_LOG, ssem := o'.ssem, rsem := o'.rsem)
    requires o'.ssem in {NoSem, Sem(count, [])} && o'.rsem in {NoSem, Sem(0, [])}
    ensures PortOk(o', p, acts, 0, 0) && o.queue == []
  {
    NoneReleased(o, p, acts);
    assert SendersOk(o', p, acts);
    assert ReceiversOk(o', p, acts);
  }

  lemma CreateOk(s: Sys, count: int, sok: bool, rok: bool, total: nat)
    requires Inv(s, total)
    ensures Inv(CreateCall(s, count, sok, rok).0, total)
  {
    hide PortOk;
    var (s', r) := CreateCall(s, count, sok, rok);
    if r.PortId? {
      FindFreeIs(s.ports, s.nextid, |s.ports|);
      CreatePort(s.ports[r.id], s'.ports[r.id], r.id, s.acts, count);
      OnePort(s, s', r.id, total);
    }
  }

  lemma ClearCallOk(s: Sys, pid: int, p: int, to: PState, total: nat)
    requires Inv(s, total) && pid !in s.acts && to != Limbo
    ensures Inv(ClearCall(s, pid, p, to).0, total)
  {
    hide PortOk;
    if Usable(s, p) {
      LimboPort(s.ports[p], p, s.acts, pid, to);
      OnePort(s, ClearCall(s, pid, p, to).0, p, total);
    }
  }

  /** The port goes into limbo, and nobody counts as released any more. */
  lemma LimboPort(o: Port, p: int, acts: map<int, Act>, pid: int, to: PState)
    requires PortOk(o, p, acts, 0, 0) && o.state == Alloc && pid !in acts && to != Limbo
    ensures var acts' := acts[pid := Clearer(p, to, Dispose(0))];
      PortOk(o.(state := Limbo, epoch := o.epoch + 1, srel := {}, rrel := {}, clearer := pid), p, acts', 0, 0) && AgreeOff(acts, acts', p)
  {
    var o', acts' := o.(state := Limbo, epoch := o.epoch + 1, srel := {}, rrel := {}, clearer := pid), acts[pid := Clearer(p, to, Dispose(0))];
    assert SendersOk(o', p, acts');
    assert ReceiversOk(o', p, acts');
  }

  lemma DisposeOk(s: Sys, pid: int, total: nat)
    requires Inv(s, total) && CanResume(s, pid) && s.acts[pid].Clearer? && s.acts[pid].stage.Dispose?
    requires s.acts[pid].stage.k < |s.ports[s.acts[pid].port].queue|
    ensures Inv(ResumeStep(s, pid).0, total)
  {
    hide PortOk;
    DisposePort(s, pid);
    OnePort(s, ResumeStep(s, pid).0, s.acts[pid].port, total);
  }

  lemma DisposePort(s: Sys, pid: int)
    requires CanResume(s, pid) && s.acts[pid].Clearer? && s.acts[pid].stage.Dispose?
    requires s.acts[pid].stage.k < |s.ports[s.acts[pid].port].queue| && PortOk(s.ports[s.acts[pid].port], s.acts[pid].port, s.acts, 0, 0)
    ensures var p, s' := s.acts[pid].port, ResumeStep(s, pid).0; PortOk(s'.ports[p], p, s'.acts, 0, 0) && AgreeOff(s.acts, s'.acts, p)
  {
    var p, k, s' := s.acts[pid].port, s.acts[pid].stage.k, ResumeStep(s, pid).0;
    var o, o' := s.ports[p], s'.ports[p];
    assert o.queue[..k] + [o.queue[k]] == o.queue[..k + 1];
    assert SendersOk(o', p, s'.acts);
    assert ReceiversOk(o', p, s'.acts);
  }

  lemma SendersDonePort(s: Sys, pid: int)
    requires CanResume(s, pid) && s.acts[pid].Clearer? && s.acts[pid].stage.Dispose?
    requires s.acts[pid].stage.k >= |s.ports[s.acts[pid].port].queue| && PortOk(s.ports[s.acts[pid].port], s.acts[pid].port, s.acts, 0, 0)
    ensures var p, s' := s.acts[pid].port, ResumeStep(s, pid).0; PortOk(s'.ports[p], p, s'.acts, 0, 0) && AgreeOff(s.acts, s'.acts, p)
  {
    var p, s' := s.acts[pid].port, ResumeStep(s, pid).0;
    var o, o' := s.ports[p], s'.ports[p];
    assert o.queue[..|o.queue|] == o.queue;
    assert SendersOk(o', p, s'.acts);
    assert ReceiversOk(o', p, s'.acts);
    assert ClearersOk(o', p, s'.acts);
  }

  lemma SendersDoneOk(s: Sys, pid: int, total: nat)
    requires Inv(s, total) && CanResume(s, pid) && s.acts[pid].Clearer? && s.acts[pid].stage.Dispose?
    requires s.acts[pid].stage.k >= |s.ports[s.acts[pid].port].queue|
    ensures Inv(ResumeStep(s, pid).0, total)
  {
    hide PortOk;
    var p, s' := s.acts[pid].port, ResumeStep(s, pid).0;
    SendersDonePort(s, pid);
    OnePort(s, s', p, total);
  }

  lemma ReceiversDoneOk(s: Sys, pid: int, total: nat)
    requires Inv(s, total) && CanResume(s, pid) && s.acts[pid].Clearer? && s.acts[pid].stage.SendersDone?
    ensures Inv(ResumeStep(s, pid).0, total)
  {
    hide PortOk;
    ReceiversDonePort(s, pid);
    OnePort(s, ResumeStep(s, pid).0, s.acts[pid].port, total);
  }

  lemma ReceiversDonePort(s: Sys, pid: int)
    requires CanResume(s, pid) && s.acts[pid].Clearer? && s.acts[pid].stage.SendersDone? && PortOk(s.ports[s.acts[pid].port], s.acts[pid].port, s.acts, 0, 0)
    ensures var p, s' := s.acts[pid].port, ResumeStep(s, pid).0; PortOk(s'.ports[p], p, s'.acts, 0, 0) && AgreeOff(s.acts, s'.acts, p)
  {
    var p, s' := s.acts[pid].port, ResumeStep(s, pid).0;
    var o, o' := s.ports[p], s'.ports[p];
    assert SendersOk(o', p, s'.acts);
    assert ReceiversOk(o', p, s'.acts);
    assert ClearersOk(o', p, s'.acts);
  }

  lemma ClearedOk(s: Sys, pid: int, total: nat)
    requires Inv(s, total) && CanResume(s, pid) && s.acts[pid].Clearer? && s.acts[pid].stage.ReceiversDone?
    ensures Inv(ResumeStep(s, pid).0, total)
  {
    hide PortOk;
    ClearedPort(s, pid);
    OnePort(s, ResumeStep(s, pid).0, s.acts[pid].port, total);
  }

  lemma ClearedPort(s: Sys, pid: int)
    requires CanResume(s, pid) && s.acts[pid].Clearer? && s.acts[pid].stage.ReceiversDone? && PortOk(s.ports[s.acts[pid].port], s.acts[pid].port, s.acts, 0, 0)
    ensures var p, s' := s.acts[pid].port, ResumeStep(s, pid).0;
      PortOk(s'.ports[p], p, s'.acts, 0, 0) && AgreeOff(s.acts, s'.acts, p) && s.ports[p].queue == []
  {
    var p, s' := s.acts[pid].port, ResumeStep(s, pid).0;
    var o, o' := s.ports[p], s'.ports[p];
    NoneReleased(o, p, s.acts);
    assert SendersOk(o', p, s'.acts);
    assert ReceiversOk(o', p, s'.acts);
    assert ClearersOk(o', p, s'.acts);
  }

  lemma ClearOnOk(s: Sys, pid: int, total: nat)
    requires Inv(s, total) && CanResume(s, pid) && s.acts[pid].Clearer?
    ensures Inv(ResumeStep(s, pid).0, total)
  {
    match s.acts[pid].stage
    case SendersDone => ReceiversDoneOk(s, pid, total);
    case ReceiversDone => ClearedOk(s, pid, total);
    case Dispose(k) =>
      if k < |s.ports[s.acts[pid].port].queue| {
        DisposeOk(s, pid, total);
      } else {
        SendersDoneOk(s, pid, total);
      }
  }

  lemma LeaveOk(m: Sem, pid: int)
    requires SemOk(m) && pid in Queue(m)
    ensures m.Sem? && SemOk(Leave(m, pid)) && Leave(m, pid).Sem? && Max0(Leave(m, pid).count) == Max0(m.count)
    ensures forall q :: q in Leave(m, pid).queue <==> q in m.queue && q != pid
  {
    WithoutIs(m.queue, pid);
  }

  lemma KillPort(s: Sys, pid: int)
    requires CanKill(s, pid) && PortOk(s.ports[s.acts[pid].port], s.acts[pid].port, s.acts, 0, 0)
    ensures var p, s' := s.acts[pid].port, KillStep(s, pid).0; PortOk(s'.ports[p], p, s'.acts, 0, 0) && AgreeOff(s.acts, s'.acts, p)
  {
    var p, s' := s.acts[pid].port, KillStep(s, pid).0;
    var o, o' := s.ports[p], s'.ports[p];
    if s.acts[pid].Sender? {
      LeaveOk(o.ssem, pid);
      assert SendersOk(o', p, s'.acts);
      assert ReceiversOk(o', p, s'.acts);
    } else {
      LeaveOk(o.rsem, pid);
      assert SendersOk(o', p, s'.acts);
      assert ReceiversOk(o', p, s'.acts);
    }
  }

  lemma KillOk(s: Sys, pid: int, total: nat)
    requires Inv(s, total) && CanKill(s, pid)
    ensures Inv(KillStep(s, pid).0, total)
  {
    hide PortOk;
    var p, s' := s.acts[pid].port, KillStep(s, pid).0;
    KillPort(s, pid);
    OnePort(s, s', p, total);
  }

  /** Which port a step works on, or 0. */
  function PortOf(s: Sys, e: Event): int
    requires Enabled(s, e)
  {
    var p := match e
      case Send(_, p, _) => p
      case Recv(_, p) => p
      case Clear(_, p, _) => p
      case Create(_, _, _) => FindFree(s.ports, s.nextid, |s.ports|)
      case Resume(pid) => s.acts[pid].port
      case Kill(pid) => s.acts[pid].port;
    if 0 <= p < |s.ports| then p else 0
  }

  lemma StepsOnePort(s: Sys, e: Event)
    requires Enabled(s, e)
    ensures |Step(s, e).0.ports| == |s.ports| && Step(s, e).0.ports == s.ports[PortOf(s, e) := Step(s, e).0.ports[PortOf(s, e)]]
  {
  }

  /** No step breaks the invariant, and no ptrecv finds an empty queue. */
  lemma StepKeeps(s: Sys, e: Event, total: nat)
    requires Inv(s, total) && Enabled(s, e)
    ensures Step(s, e).1 != Fault
    ensures Step(s, e).1 != Panic ==> Inv(Step(s, e).0, total)
  {
    hide RecvCall, Inv, Wake, Signal, FindFree;
    match e
    case Send(pid, p, msg) => SendCallOk(s, pid, p, msg, total);
    case Recv(pid, p) => RecvCallOk(s, pid, p, total);
    case Create(count, sok, rok) => CreateOk(s, count, sok, rok, total);
    case Clear(pid, p, to) => ClearCallOk(s, pid, p, to, total);
    case Kill(pid) => KillOk(s, pid, total);
    case Resume(pid) =>
      if s.acts[pid].Sender? {
        SenderRuns(s, pid, total);
      } else if s.acts[pid].Receiver? {
        ReceiverRuns(s, pid, total);
      } else {
        ClearOnOk(s, pid, total);
      }
  }
}
