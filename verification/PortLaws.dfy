/** What the calls on ports answer: when they block, when they are refused, and what they hand over. */
module PortLaws {
  import opened PortSpec
  import opened PortSteps
  import opened PortRuns

  /** What is left of a port's capacity, once the messages and the senders that have been let in but
      have not run are taken off. */
  function Room(o: Port): int { o.cap - |o.queue| - |o.srel| }

  /** ptsend is refused exactly if there is no such port or it has no semaphore. Otherwise it blocks
      exactly if the port has no room, and panics exactly if it has and no node is free; else the
      message is the last of the port. */
  lemma SendIs(s: Sys, pid: int, p: int, msg: Msg, total: nat)
    requires Inv(s, total) && Enabled(s, Send(pid, p, msg))
    ensures var (s', r) := Step(s, Send(pid, p, msg));
      if !Usable(s, p) || s.ports[p].ssem.NoSem? then r == SysErr && s' == s
      else
        && (r == Blocked <==> Room(s.ports[p]) == 0) && (r == Panic <==> Room(s.ports[p]) != 0 && s.nfree == 0) && r in {Blocked, Panic, Ok}
        && |s'.ports| == |s.ports| && s'.ports[p].queue == s.ports[p].queue + if r == Ok then [msg] else []
  {
    hide Wake, SendersOk, ReceiversOk, ClearersOk;
    if Usable(s, p) && s.ports[p].ssem.Sem? {
      assert PortOk(s.ports[p], p, s.acts, 0, 0);
    }
  }

  /** ptrecv is refused exactly if there is no such port or it has no semaphore. Otherwise it blocks
      exactly if every message is already promised to a receiver that has been let in; else it hands
      over the oldest message. */
  lemma RecvIs(s: Sys, pid: int, p: int, total: nat)
    requires Inv(s, total) && Enabled(s, Recv(pid, p))
    ensures var (s', r) := Step(s, Recv(pid, p));
      if !Usable(s, p) || s.ports[p].rsem.NoSem? then r == SysErr && s' == s
      else
        var o := s.ports[p];
        && |o.rrel| <= |o.queue| && (r == Blocked <==> |o.rrel| == |o.queue|) && |s'.ports| == |s.ports|
        && if r == Blocked then s'.ports[p].queue == o.queue else r == Message(o.queue[0]) && s'.ports[p].queue == o.queue[1..]
  {
    hide Wake, SendersOk, ReceiversOk, ClearersOk;
    if Usable(s, p) && s.ports[p].rsem.Sem? {
      assert PortOk(s.ports[p], p, s.acts, 0, 0);
    }
  }

  lemma {:induction false} FindFreeMisses(ports: seq<Port>, id: int, n: nat, p: int)
    requires 0 <= id < |ports| && 0 <= p < |ports| && ports[p].state == Free && n <= |ports| && (if id <= p then p - id else p - id + |ports|) < n
    ensures FindFree(ports, id, n) != -1
    decreases n
  {
    if ports[id].state != Free {
      FindFreeMisses(ports, if id + 1 >= |ports| then 0 else id + 1, n - 1, p);
    }
  }

  /** How far port p is from id, going up and round. */
  function Way(id: int, p: int, n: int): int { if id <= p then p - id else p - id + n }

  lemma {:induction false} FindFreeNearest(ports: seq<Port>, id: int, n: nat, p: int)
    requires 0 <= id < |ports| && 0 <= p < |ports| && ports[p].state == Free && n <= |ports| && FindFree(ports, id, n) != -1
    ensures 0 <= FindFree(ports, id, n) < |ports| && Way(id, FindFree(ports, id, n), |ports|) <= Way(id, p, |ports|) && Way(id, FindFree(ports, id, n), |ports|) < n
    decreases n
  {
    if ports[id].state != Free {
      var next := if id + 1 >= |ports| then 0 else id + 1;
      FindFreeNearest(ports, next, n - 1, p);
    }
  }

  /** ptcreate takes the nearest port that is free, looking up and round from the one after the last
      that was created, and fails exactly if none is free, or the count is negative. */
  lemma CreateIs(s: Sys, count: int, sok: bool, rok: bool, total: nat)
    requires Inv(s, total) && Enabled(s, Create(count, sok, rok))
    ensures var (s', r) := Step(s, Create(count, sok, rok));
      if count < 0 || forall p :: 0 <= p < |s.ports| ==> s.ports[p].state != Free then r == SysErr && s' == s
      else
        && r.PortId? && 0 <= r.id < |s.ports| && s.ports[r.id].state == Free && s'.ports == s.ports[r.id := s'.ports[r.id]]
        && s'.ports[r.id].state == Alloc && s'.ports[r.id].epoch == s.ports[r.id].epoch + 1 && s'.ports[r.id].queue == [] && s'.ports[r.id].cap == count
        && s'.nextid == (if r.id + 1 == |s.ports| then 0 else r.id + 1)
        && forall p :: 0 <= p < |s.ports| && s.ports[p].state == Free ==> Way(s.nextid, r.id, |s.ports|) <= Way(s.nextid, p, |s.ports|)
  {
    FindFreeIs(s.ports, s.nextid, |s.ports|);
    forall p | 0 <= p < |s.ports| && s.ports[p].state == Free
      ensures FindFree(s.ports, s.nextid, |s.ports|) != -1
    {
      FindFreeMisses(s.ports, s.nextid, |s.ports|, p);
    }
    forall p | 0 <= p < |s.ports| && s.ports[p].state == Free && FindFree(s.ports, s.nextid, |s.ports|) != -1
      ensures Way(s.nextid, FindFree(s.ports, s.nextid, |s.ports|), |s.ports|) <= Way(s.nextid, p, |s.ports|)
    {
      FindFreeNearest(s.ports, s.nextid, |s.ports|, p);
    }
  }

  /** ptreset and ptdelete are refused exactly if the port is not in use; otherwise it is closed to
      everybody else at once, and a new epoch has begun. */
  lemma ClearIs(s: Sys, pid: int, p: int, to: PState, total: nat)
    requires Inv(s, total) && Enabled(s, Clear(pid, p, to))
    ensures var (s', r) := Step(s, Clear(pid, p, to));
      if !Usable(s, p) then r == SysErr && s' == s
      else r == Working && |s'.ports| == |s.ports| && s'.ports[p].state == Limbo && s'.ports[p].epoch == s.ports[p].epoch + 1 && !Usable(s', p)
  {
  }

  /** A released process that runs on finishes its call if its port is in the epoch in which it waited:
      a sender's own message is the last of the port, unless no node is free; a receiver gets the oldest.
      Otherwise it returns SYSERR. Either way it is inside no call any more. */
  lemma ResumeIs(s: Sys, pid: int, total: nat)
    requires Inv(s, total) && Enabled(s, Resume(pid)) && !s.acts[pid].Clearer?
    ensures var ((s', r), a) := (Step(s, Resume(pid)), s.acts[pid]);
      var o := s.ports[a.port];
      && |s'.ports| == |s.ports| && (r != Panic ==> pid !in s'.acts)
      && if o.state != Alloc || o.epoch != a.epoch then r == SysErr && s'.ports == s.ports
         else if a.Sender? then (if s.nfree == 0 then r == Panic else r == Ok && s'.ports[a.port].queue == o.queue + [a.msg])
         else o.queue != [] && r == Message(o.queue[0]) && s'.ports[a.port].queue == o.queue[1..]
  {
    hide ClearersOk;
    assert PortOk(s.ports[s.acts[pid].port], s.acts[pid].port, s.acts, 0, 0);
  }

  /** Once a clearing call is past its last stage, the port is free and the next to be looked at, or in
      use and empty with all of its capacity and nobody waiting. */
  lemma ClearEnds(s: Sys, pid: int, total: nat)
    requires Inv(s, total) && Enabled(s, Resume(pid)) && s.acts[pid].Clearer? && Step(s, Resume(pid)).1 == Ok
    ensures var (s', a) := (Step(s, Resume(pid)).0, s.acts[pid]);
      && |s'.ports| == |s.ports| && s'.ports[a.port].state == a.to && s'.ports[a.port].queue == [] && pid !in s'.acts
      && Queue(s'.ports[a.port].ssem) == [] && Queue(s'.ports[a.port].rsem) == []
      && s'.nextid == (if a.to == Free then a.port else s.nextid)
      && (a.to == Alloc && s'.ports[a.port].ssem.Sem? ==> Room(s'.ports[a.port]) == s'.ports[a.port].maxcnt)
  {
    hide SendersOk, ReceiversOk;
    var a := s.acts[pid];
    assert PortOk(s.ports[a.port], a.port, s.acts, 0, 0);
    StepKeeps(s, Resume(pid), total);
    assert PortOk(Step(s, Resume(pid)).0.ports[a.port], a.port, Step(s, Resume(pid)).0.acts, 0, 0);
  }
}
