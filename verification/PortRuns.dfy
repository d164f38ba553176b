/** Main results about ports: what every interleaving of sends, receives, resets, deletes and
    kills keeps, and when the message nodes cannot run out. */
module PortRuns {
  import opened PortSpec
  import opened PortSteps
  import opened Ports

  // ---- runs

  /** Every event can happen when its turn comes, and none panics. */
  ghost predicate Legal(s: Sys, evs: seq<Event>)
    decreases |evs|
  {
    evs == [] || (Enabled(s, evs[0]) && Step(s, evs[0]).1 != Panic && Legal(Step(s, evs[0]).0, evs[1..]))
  }

  function Run(s: Sys, evs: seq<Event>): Sys
    requires Legal(s, evs)
    decreases |evs|
  {
    if evs == [] then s else Run(Step(s, evs[0]).0, evs[1..])
  }

  lemma {:induction false} RunKeeps(s: Sys, evs: seq<Event>, total: nat)
    requires Inv(s, total) && Legal(s, evs)
    ensures Inv(Run(s, evs), total)
    decreases |evs|
  {
    if evs != [] {
      StepKeeps(s, evs[0], total);
      RunKeeps(Step(s, evs[0]).0, evs[1..], total);
    }
  }

  /** Any step, on the port table and the nodes themselves. */
  method Do(ps: PortSystem, e: Event) returns (r: Ret)
    requires ps.Valid() && Enabled(ps.st, e)
    modifies ps, ps.porttab, ps.nodes
    ensures r != Panic ==> ps.Valid()
    ensures Step(old(ps.st), e) == (ps.st, r)
  {
    match e
    case Send(pid, p, msg) => r := ps.Ptsend(pid, p, msg);
    case Recv(pid, p) => r := ps.Ptrecv(pid, p);
    case Create(count, sok, rok) => r := ps.Ptcreate(count, sok, rok);
    case Clear(pid, p, to) => r := ps.Ptclear(pid, p, to);
    case Resume(pid) => r := ps.Resume(pid);
    case Kill(pid) => r := ps.Kill(pid);
  }

  /** Every interleaving of the port calls drives the linked nodes to the state it has here. */
  method Perform(ps: PortSystem, evs: seq<Event>)
    requires ps.Valid() && Legal(ps.st, evs)
    modifies ps, ps.porttab, ps.nodes
    ensures ps.Valid() && ps.st == Run(old(ps.st), evs)
  {
    var i := 0;
    while i < |evs|
      invariant 0 <= i <= |evs| && ps.Valid() && Legal(ps.st, evs[i..]) && Run(ps.st, evs[i..]) == Run(old(ps.st), evs)
    {
      assert evs[i..][0] == evs[i] && evs[i..][1..] == evs[i + 1..];
      var _ := Do(ps, evs[i]);
      i := i + 1;
    }
  }

  // ---- tokens

  /** In every reachable state a port's queue is what its two semaphores and the released
      processes say, a receiver that may go on has a message to take, and a sender room. */
  lemma Tokens(s: Sys, total: nat, p: int)
    requires Inv(s, total) && 0 <= p < |s.ports| && s.ports[p].state == Alloc
    ensures var o := s.ports[p];
      && (o.ssem.Sem? ==> Max0(o.ssem.count) + |o.srel| + |o.queue| == o.cap)
      && (o.rsem.Sem? ==> |o.queue| == Max0(o.rsem.count) + |o.rrel|)
      && (o.rrel != {} ==> o.queue != [])
      && (o.srel != {} ==> |o.queue| < o.cap)
  {
    assert PortOk(s.ports[p], p, s.acts, 0, 0);
  }

  /** ptcount, on a port both of whose semaphores were allocated. */
  function Ptcount(o: Port): int
    requires o.ssem.Sem? && o.rsem.Sem?
  {
    if o.rsem.count >= 0 && o.ssem.count < 0 then o.rsem.count - o.ssem.count else o.rsem.count
  }

  /** What ptcount says: messages, less those already promised to a receiver that has not yet
      run, plus the senders that are blocked; or, below zero, the blocked receivers. */
  lemma PtcountMeans(s: Sys, total: nat, p: int)
    requires Inv(s, total) && 0 <= p < |s.ports| && s.ports[p].state == Alloc
    requires s.ports[p].ssem.Sem? && s.ports[p].rsem.Sem?
    ensures var o := s.ports[p];
      Ptcount(o) == if Queue(o.rsem) != [] then -|Queue(o.rsem)| else |o.queue| - |o.rrel| + |Queue(o.ssem)|
  {
    assert PortOk(s.ports[p], p, s.acts, 0, 0);
  }

  /** The call starts to clear port p: it is in use. */
  predicate Clears(s: Sys, e: Event, p: int) { e.Clear? && e.port == p && Usable(s, p) }

  /** Some call of the run starts to reset port p. */
  ghost predicate Resets(s: Sys, evs: seq<Event>, p: int)
    requires Legal(s, evs)
    decreases |evs|
  {
    evs != [] && ((Clears(s, evs[0], p) && evs[0].to == Alloc) || Resets(Step(s, evs[0]).0, evs[1..], p))
  }

  /** No call of the run starts to delete port p. */
  ghost predicate Survives(s: Sys, evs: seq<Event>, p: int)
    requires Legal(s, evs)
    decreases |evs|
  {
    evs == [] || (!(Clears(s, evs[0], p) && evs[0].to == Free) && Survives(Step(s, evs[0]).0, evs[1..], p))
  }

  /** The capacity of a port that was created with this count: as asked for until the first reset,
      and once a reset is past the senders what the table's 16 bits hold. */
  ghost predicate CapIs(s: Sys, p: int, count: int, reset: bool) {
    && 0 <= p < |s.ports| && s.ports[p].maxcnt == count % 65536
    && match s.ports[p].state
       case Free => false
       case Alloc => s.ports[p].cap == if reset then count % 65536 else count
       case Limbo =>
         var q := s.ports[p].clearer;
         reset && q in s.acts && s.acts[q].Clearer? && s.acts[q].port == p && s.acts[q].to == Alloc && (!s.acts[q].stage.Dispose? ==> s.ports[p].cap == count % 65536)
  }

  lemma CapStep(s: Sys, e: Event, p: int, count: int, reset: bool, total: nat)
    requires Inv(s, total) && Enabled(s, e) && CapIs(s, p, count, reset) && !(Clears(s, e, p) && e.to == Free)
    ensures CapIs(Step(s, e).0, p, count, reset || Clears(s, e, p))
  {
    hide PortOk, Inv, Queued;
    StepsOnePort(s, e);
    if e.Create? {
      FindFreeIs(s.ports, s.nextid, |s.ports|);
    } else if e.Resume? {
      CapResume(s, e.pid, p, count, reset, total);
    }
  }

  lemma CapResume(s: Sys, pid: int, p: int, count: int, reset: bool, total: nat)
    requires Inv(s, total) && CanResume(s, pid) && CapIs(s, p, count, reset)
    ensures CapIs(ResumeStep(s, pid).0, p, count, reset)
  {
    hide SendersOk, ReceiversOk, TokensOk, SemOk;
    assert PortOk(s.ports[p], p, s.acts, 0, 0);
    var a := s.acts[pid];
    if a.Clearer? && a.port == p {
      assert pid == s.ports[p].clearer && s.ports[p].state == Limbo;
    }
  }

  lemma {:induction false} RunCap(s: Sys, evs: seq<Event>, p: int, count: int, reset: bool, total: nat)
    requires Inv(s, total) && Legal(s, evs) && CapIs(s, p, count, reset) && Survives(s, evs, p)
    ensures CapIs(Run(s, evs), p, count, reset || Resets(s, evs, p))
    decreases |evs|
  {
    if evs != [] {
      StepKeeps(s, evs[0], total);
      CapStep(s, evs[0], p, count, reset, total);
      RunCap(Step(s, evs[0]).0, evs[1..], p, count, reset || Clears(s, evs[0], p), total);
    }
  }

  /** A port does not keep its capacity over a reset: after any run in which it is not deleted, the
      port has the capacity it was created with exactly if it was never reset, or the count fits in
      16 bits; else it has what is left of the count in 16 bits. */
  lemma CapacityAfter(s: Sys, count: int, sok: bool, rok: bool, evs: seq<Event>, total: nat)
    requires Inv(s, total) && CreateCall(s, count, sok, rok).1.PortId?
    requires var (s1, r) := CreateCall(s, count, sok, rok); Legal(s1, evs) && Survives(s1, evs, r.id)
    ensures var (s1, r) := CreateCall(s, count, sok, rok);
      var s' := Run(s1, evs);
      0 <= r.id < |s'.ports| &&
      var o := s'.ports[r.id];
      o.state != Free && (o.state == Alloc ==>
        && (o.cap == count <==> !Resets(s1, evs, r.id) || count < 65536)
        && (Resets(s1, evs, r.id) ==> o.cap == count % 65536))
  {
    hide PortOk;
    var (s1, r) := CreateCall(s, count, sok, rok);
    FindFreeIs(s.ports, s.nextid, |s.ports|);
    CreateInv(s, count, sok, rok, total);
    RunCap(s1, evs, r.id, count, false, total);
  }

  /** A port created with the count 65536 is reset, and has no capacity left. */
  lemma CapacityInstance()
    ensures var (s, r) := CreateCall(Init(1, 10), 65536, true, true);
      var evs := [Clear(7, 0, Alloc), Resume(7), Resume(7), Resume(7)];
      && r == PortId(0) && s.ports[0].cap == 65536
      && Legal(s, evs) && Run(s, evs).ports[0].state == Alloc && Run(s, evs).ports[0].cap == 0
  {
    hide Put, Get, SendCall, RecvCall, KillStep;
    var (s, id) := CreateCall(Init(1, 10), 65536, true, true);
    assert id == PortId(0) && s.ports[0] == Port(Alloc, 1, 0, Sem(65536, []), Sem(0, []), [], 65536, {}, {}, -1, EMPTY_LOG);
    var s1 := ClearCall(s, 7, 0, Alloc).0;
    assert s1.acts[7] == Clearer(0, Alloc, Dispose(0));
    var s2 := ResumeStep(s1, 7).0;
    assert s2.acts[7] == Clearer(0, Alloc, SendersDone) && s2.ports[0].cap == 0;
    var s3 := ResumeStep(s2, 7).0;
    assert s3.acts[7] == Clearer(0, Alloc, ReceiversDone);
    var r := Resume(7);
    RunOne(s3, r, []);
    RunOne(s2, r, [r]);
    RunOne(s1, r, [r, r]);
    RunOne(s, Clear(7, 0, Alloc), [r, r, r]);
    assert [Clear(7, 0, Alloc)] + ([r] + ([r] + ([r] + []))) == [Clear(7, 0, Alloc), r, r, r];
  }

  lemma RunOne(s: Sys, e: Event, evs: seq<Event>)
    requires Enabled(s, e) && Step(s, e).1 != Panic && Legal(Step(s, e).0, evs)
    ensures Legal(s, [e] + evs) && Run(s, [e] + evs) == Run(Step(s, e).0, evs)
  {
    assert ([e] + evs)[1..] == evs;
  }

  lemma CreateInv(s: Sys, count: int, sok: bool, rok: bool, total: nat)
    requires Inv(s, total) && CreateCall(s, count, sok, rok).1.PortId?
    ensures Inv(CreateCall(s, count, sok, rok).0, total)
  {
    StepKeeps(s, Create(count, sok, rok), total);
  }

  ghost predicate CapsExact(s: Sys) {
    forall p :: 0 <= p < |s.ports| && s.ports[p].state != Free ==> s.ports[p].cap == s.ports[p].maxcnt
  }

  /** As long as no port is created with a larger count, capacities are what ptmaxcnt says. */
  lemma StepCapsExact(s: Sys, e: Event, total: nat)
    requires Inv(s, total) && Enabled(s, e) && CapsExact(s)
    requires e.Create? ==> e.count < 65536
    ensures CapsExact(Step(s, e).0)
  {
    hide Inv, SendCall, RecvCall, ClearCall, ResumeStep, KillStep;
    StepsOnePort(s, e);
    if e.Create? {
      FindFreeIs(s.ports, s.nextid, |s.ports|);
    } else {
      StepCap(s, e, total);
    }
  }

  /** What a step can do to a port's capacity. */
  ghost predicate CapMove(o: Port, o': Port) {
    o'.state != Free ==> o.state != Free && o'.maxcnt == o.maxcnt && o'.cap in {o.cap, o.maxcnt}
  }

  ghost predicate CapMoved(s: Sys, e: Event)
    requires Enabled(s, e)
  {
    var p, s' := PortOf(s, e), Step(s, e).0;
    0 <= p < |s.ports| == |s'.ports| && CapMove(s.ports[p], s'.ports[p])
  }

  lemma ResumeCap(s: Sys, pid: int, total: nat)
    requires Inv(s, total) && Enabled(s, Resume(pid))
    ensures CapMoved(s, Resume(pid))
  {
    hide Signal, SendersOk, ReceiversOk, TokensOk, SemOk;
    var p := s.acts[pid].port;
    assert PortOk(s.ports[p], p, s.acts, 0, 0);
  }

  lemma StepCap(s: Sys, e: Event, total: nat)
    requires Inv(s, total) && Enabled(s, e) && !e.Create?
    ensures CapMoved(s, e)
  {
    hide PortOk, Signal, Wake, ResumeStep;
    if e.Resume? {
      ResumeCap(s, e.pid, total);
    }
  }

  // ---- the pool of message nodes

  function Capacity(ports: seq<Port>): int {
    if ports == [] then 0 else (if ports[|ports| - 1].state == Free then 0 else ports[|ports| - 1].cap) + Capacity(ports[..|ports| - 1])
  }

  lemma {:induction false} QueuedWithin(ports: seq<Port>)
    requires forall p :: 0 <= p < |ports| ==> |ports[p].queue| <= if ports[p].state == Free then 0 else ports[p].cap
    ensures Queued(ports) <= Capacity(ports)
    ensures (exists p :: 0 <= p < |ports| && ports[p].state != Free && |ports[p].queue| < ports[p].cap) ==> Queued(ports) < Capacity(ports)
  {
    if ports != [] {
      var n := |ports| - 1;
      QueuedWithin(ports[..n]);
      if p :| 0 <= p < |ports| && ports[p].state != Free && |ports[p].queue| < ports[p].cap {
        if p < n {
          assert ports[..n][p] == ports[p];
        }
      }
    }
  }

  /** If the capacities add up to no more than the nodes ptinit made, no ptsend panics. */
  lemma NoPanic(s: Sys, e: Event, total: nat)
    requires Inv(s, total) && Enabled(s, e) && Capacity(s.ports) <= total
    ensures Step(s, e).1 != Panic
  {
    forall p | 0 <= p < |s.ports|
      ensures |s.ports[p].queue| <= if s.ports[p].state == Free then 0 else s.ports[p].cap
    {
      assert PortOk(s.ports[p], p, s.acts, 0, 0);
    }
    QueuedWithin(s.ports);
    if Step(s, e).1 == Panic {
      PanicRoom(s, e, total);
    }
  }

  /** ptsend looks for a node only when its port has room. */
  lemma PanicRoom(s: Sys, e: Event, total: nat)
    requires Inv(s, total) && Enabled(s, e) && Step(s, e).1 == Panic
    ensures s.nfree == 0 && exists p :: 0 <= p < |s.ports| && s.ports[p].state != Free && |s.ports[p].queue| < s.ports[p].cap
  {
    var p := if e.Send? then e.port else s.acts[e.pid].port;
    assert PortOk(s.ports[p], p, s.acts, 0, 0);
    if e.Resume? {
      OneLess(s.ports[p].srel, e.pid);
    }
  }

  lemma {:induction false} CapacityUpdate(ports: seq<Port>, p: int, o: Port)
    requires 0 <= p < |ports|
    ensures Capacity(ports[p := o]) == Capacity(ports) - (if ports[p].state == Free then 0 else ports[p].cap) + (if o.state == Free then 0 else o.cap)
  {
    var n := |ports| - 1;
    if p < n {
      assert ports[p := o][..n] == ports[..n][p := o];
      CapacityUpdate(ports[..n], p, o);
    } else {
      assert ports[p := o][..n] == ports[..n];
    }
  }

  /** Only ptcreate adds capacity, and no more than it was asked for. */
  lemma StepCapacity(s: Sys, e: Event, total: nat)
    requires Inv(s, total) && Enabled(s, e)
    ensures Capacity(Step(s, e).0.ports) <= Capacity(s.ports) + if e.Create? && e.count >= 0 then e.count else 0
  {
    var p, s' := PortOf(s, e), Step(s, e).0;
    StepsOnePort(s, e);
    CapacityUpdate(s.ports, p, s'.ports[p]);
    assert PortOk(s.ports[p], p, s.acts, 0, 0);
    if e.Create? {
      FindFreeIs(s.ports, s.nextid, |s.ports|);
    } else {
      StepCap(s, e, total);
    }
  }

  // ---- epochs

  /** What a step shows to the outside: port, epoch and message, in the order of the calls'
      effects. */
  datatype Obs = Sent(p: int, n: int, msg: Msg) | Rcvd(p: int, n: int, msg: Msg) | Disposed(p: int, n: int, msg: Msg)

  /** The observation a step makes, from the call, its result and the port's sequence number. */
  function Shown(s: Sys, e: Event): seq<Obs>
    requires Enabled(s, e)
  {
    var r := Step(s, e).1;
    match e
    case Send(_, p, msg) => if r == Ok then [Sent(p, s.ports[p].epoch, msg)] else []
    case Recv(_, p) => if r.Message? then [Rcvd(p, s.ports[p].epoch, r.msg)] else []
    case Resume(pid) =>
      var a := s.acts[pid];
      if a.Sender? then (if r == Ok then [Sent(a.port, a.epoch, a.msg)] else [])
      else if a.Receiver? then (if r.Message? then [Rcvd(a.port, a.epoch, r.msg)] else [])
      else if a.stage.Dispose? && a.stage.k < |s.ports[a.port].queue| then
        [Disposed(a.port, s.ports[a.port].epoch - 1, s.ports[a.port].queue[a.stage.k])]
      else []
    case _ => []
  }

  function Trace(s: Sys, evs: seq<Event>): seq<Obs>
    requires Legal(s, evs)
    decreases |evs|
  {
    if evs == [] then [] else Shown(s, evs[0]) + Trace(Step(s, evs[0]).0, evs[1..])
  }

  /** The messages that ptsend accepted at port p in epoch n; likewise received and disposed of. */
  function SentIn(tr: seq<Obs>, p: int, n: int): seq<Msg> {
    if tr == [] then []
    else
      var o, rest := tr[|tr| - 1], SentIn(tr[..|tr| - 1], p, n);
      if o.Sent? && o.p == p && o.n == n then rest + [o.msg] else rest
  }

  function RcvdIn(tr: seq<Obs>, p: int, n: int): seq<Msg> {
    if tr == [] then []
    else
      var o, rest := tr[|tr| - 1], RcvdIn(tr[..|tr| - 1], p, n);
      if o.Rcvd? && o.p == p && o.n == n then rest + [o.msg] else rest
  }

  function DisposedIn(tr: seq<Obs>, p: int, n: int): seq<Msg> {
    if tr == [] then []
    else
      var o, rest := tr[|tr| - 1], DisposedIn(tr[..|tr| - 1], p, n);
      if o.Disposed? && o.p == p && o.n == n then rest + [o.msg] else rest
  }

  /** The epoch whose messages a port still holds or disposes of; none for a free port. */
  function Current(o: Port): int {
    match o.state
    case Alloc => o.epoch
    case Limbo => o.epoch - 1
    case Free => o.epoch + 1
  }

  ghost predicate Unused(tr: seq<Obs>, p: int, n: int) {
    SentIn(tr, p, n) == RcvdIn(tr, p, n) == DisposedIn(tr, p, n) == []
  }

  ghost predicate Finished(tr: seq<Obs>, p: int, n: int) {
    SentIn(tr, p, n) == RcvdIn(tr, p, n) + DisposedIn(tr, p, n)
  }

  /** The trace so far and the ports' logs agree. */
  ghost predicate TraceOk(o: Port, p: int, tr: seq<Obs>) {
    && SentIn(tr, p, Current(o)) == o.log.sent
    && RcvdIn(tr, p, Current(o)) == o.log.rcvd
    && DisposedIn(tr, p, Current(o)) == o.log.disposed
    && (forall n :: n > Current(o) ==> Unused(tr, p, n))
    && (forall n :: n < Current(o) ==> Finished(tr, p, n))
  }

  ghost predicate AllTraceOk(s: Sys, tr: seq<Obs>) {
    forall p {:trigger s.ports[p]} :: 0 <= p < |s.ports| ==> TraceOk(s.ports[p], p, tr)
  }

  /** What a step can do to the log of the port it works on. */
  ghost predicate Move(o: Port, o': Port, p: int, sh: seq<Obs>) {
    || (sh == [] && o'.log == o.log && Current(o') == Current(o))
    || (sh == [] && o.log.sent == o.log.rcvd + o.log.disposed && Current(o') > Current(o) && o'.log == EMPTY_LOG)
    || (Current(o') == Current(o) && o'.state == o.state != Free && |sh| == 1 && sh[0].p == p && sh[0].n == Current(o)
        && o'.log == match sh[0]
                     case Sent(_, _, m) => o.log.(sent := o.log.sent + [m])
                     case Rcvd(_, _, m) => o.log.(rcvd := o.log.rcvd + [m])
                     case Disposed(_, _, m) => o.log.(disposed := o.log.disposed + [m]))
  }

  /** The step moves its port on, and shows what it does. */
  ghost predicate Moved(s: Sys, e: Event)
    requires Enabled(s, e)
  {
    var p, s' := PortOf(s, e), Step(s, e).0;
    0 <= p < |s.ports| == |s'.ports| && Move(s.ports[p], s'.ports[p], p, Shown(s, e))
  }

  lemma ResumeMoves(s: Sys, pid: int, total: nat)
    requires Inv(s, total) && Enabled(s, Resume(pid)) && Step(s, Resume(pid)).1 != Panic
    ensures Moved(s, Resume(pid))
  {
    hide Inv, Moved;
    if s.acts[pid].Clearer? {
      ClearMoves(s, pid, total);
    } else {
      ReleasedMoves(s, pid, total);
    }
  }

  /** A process that clears its port goes on. */
  lemma ClearMoves(s: Sys, pid: int, total: nat)
    requires Inv(s, total) && Enabled(s, Resume(pid)) && s.acts[pid].Clearer?
    ensures Moved(s, Resume(pid))
  {
    hide SemOk, SendersOk, ReceiversOk, Queued, Signal, Wake, TokensOk;
    var p := s.acts[pid].port;
    assert PortOk(s.ports[p], p, s.acts, 0, 0);
  }

  /** A released sender or receiver runs on. */
  lemma ReleasedMoves(s: Sys, pid: int, total: nat)
    requires Inv(s, total) && Enabled(s, Resume(pid)) && !s.acts[pid].Clearer? && Step(s, Resume(pid)).1 != Panic
    ensures Moved(s, Resume(pid))
  {
    hide Inv, Signal, Wake, ClearOn;
    if s.acts[pid].Receiver? {
      ReceiverRuns(s, pid, total);
    }
    assert 0 <= s.acts[pid].port < |s.ports|;
  }

  lemma StepMoves(s: Sys, e: Event, total: nat)
    requires Inv(s, total) && Enabled(s, e) && Step(s, e).1 != Panic
    ensures Moved(s, e)
  {
    hide Inv, Moved;
    if e.Resume? {
      ResumeMoves(s, e.pid, total);
    } else {
      CallMoves(s, e, total);
    }
  }

  /** A new call, or a kill. */
  lemma CallMoves(s: Sys, e: Event, total: nat)
    requires Inv(s, total) && Enabled(s, e) && !e.Resume? && Step(s, e).1 != Panic
    ensures Moved(s, e)
  {
    hide SendersOk, ReceiversOk, ClearersOk, TokensOk, SemOk, Queued, Signal, Wake, ResumeStep;
    var p := PortOf(s, e);
    assert 0 <= p < |s.ports|;
    if e.Create? {
      FindFreeIs(s.ports, s.nextid, |s.ports|);
      assert PortOk(s.ports[p], p, s.acts, 0, 0);
    } else if e.Recv? {
      RecvCallOk(s, e.pid, e.port, total);
    }
  }

  /** An observation elsewhere changes nothing for port p in epoch n. */
  lemma Elsewhere(tr: seq<Obs>, sh: seq<Obs>, p: int, n: int)
    requires |sh| <= 1 && forall i :: 0 <= i < |sh| ==> sh[i].p != p || sh[i].n != n
    ensures SentIn(tr + sh, p, n) == SentIn(tr, p, n)
    ensures RcvdIn(tr + sh, p, n) == RcvdIn(tr, p, n)
    ensures DisposedIn(tr + sh, p, n) == DisposedIn(tr, p, n)
  {
    if sh == [] {
      assert tr + sh == tr;
    } else {
      assert (tr + sh)[..|tr|] == tr && (tr + sh)[|tr|] == sh[0];
    }
  }

  lemma MoveTrace(o: Port, o': Port, p: int, sh: seq<Obs>, tr: seq<Obs>)
    requires Move(o, o', p, sh) && TraceOk(o, p, tr)
    ensures TraceOk(o', p, tr + sh)
  {
    if sh == [] {
      assert tr + sh == tr;
    } else {
      assert (tr + sh)[..|tr|] == tr && (tr + sh)[|tr|] == sh[0];
    }
    assert Current(o') > Current(o) ==> Unused(tr, p, Current(o'));
    forall n | n != Current(o')
      ensures if n > Current(o') then Unused(tr + sh, p, n) else Finished(tr + sh, p, n)
    {
      Elsewhere(tr, sh, p, n);
      assert n > Current(o) ==> Unused(tr, p, n);
      assert n < Current(o) ==> Finished(tr, p, n);
    }
  }

  /** A port that the step does not work on. */
  lemma OtherTrace(o: Port, q: int, sh: seq<Obs>, tr: seq<Obs>)
    requires TraceOk(o, q, tr) && |sh| <= 1 && forall i :: 0 <= i < |sh| ==> sh[i].p != q
    ensures TraceOk(o, q, tr + sh)
  {
    Elsewhere(tr, sh, q, Current(o));
    forall n | n != Current(o)
      ensures if n > Current(o) then Unused(tr + sh, q, n) else Finished(tr + sh, q, n)
    {
      Elsewhere(tr, sh, q, n);
      assert n > Current(o) ==> Unused(tr, q, n);
      assert n < Current(o) ==> Finished(tr, q, n);
    }
  }

  lemma StepTrace(s: Sys, e: Event, total: nat, tr: seq<Obs>)
    requires Inv(s, total) && Enabled(s, e) && Step(s, e).1 != Panic && AllTraceOk(s, tr)
    ensures AllTraceOk(Step(s, e).0, tr + Shown(s, e))
  {
    var s', sh, p := Step(s, e).0, Shown(s, e), PortOf(s, e);
    StepsOnePort(s, e);
    StepMoves(s, e, total);
    forall q | 0 <= q < |s'.ports|
      ensures TraceOk(s'.ports[q], q, tr + sh)
    {
      assert TraceOk(s.ports[q], q, tr);
      if q == p {
        MoveTrace(s.ports[p], s'.ports[p], p, sh, tr);
      } else {
        OtherTrace(s.ports[q], q, sh, tr);
      }
    }
  }

  lemma {:induction false} RunTrace(s: Sys, evs: seq<Event>, total: nat, tr: seq<Obs>)
    requires Inv(s, total) && Legal(s, evs) && AllTraceOk(s, tr)
    ensures AllTraceOk(Run(s, evs), tr + Trace(s, evs)) && Inv(Run(s, evs), total)
    decreases |evs|
  {
    if evs == [] {
      assert tr + Trace(s, evs) == tr;
    } else {
      var s1 := Step(s, evs[0]).0;
      StepKeeps(s, evs[0], total);
      StepTrace(s, evs[0], total, tr);
      RunTrace(s1, evs[1..], total, tr + Shown(s, evs[0]));
      assert tr + (Shown(s, evs[0]) + Trace(s1, evs[1..])) == tr + Shown(s, evs[0]) + Trace(s1, evs[1..]);
    }
  }

  /** In every interleaving, at every port and in every epoch, the messages received are a prefix
      of the messages sent; and once an epoch is over, every message sent in it has been either
      received or handed to the disposal function, once and in order. */
  lemma EpochPrefix(nports: nat, maxmsgs: nat, evs: seq<Event>, p: int, n: int)
    requires nports > 0 && Legal(Init(nports, maxmsgs), evs) && 0 <= p < nports
    ensures var tr, s := Trace(Init(nports, maxmsgs), evs), Run(Init(nports, maxmsgs), evs);
      && |s.ports| == nports
      && RcvdIn(tr, p, n) <= SentIn(tr, p, n)
      && (n != Current(s.ports[p]) ==> SentIn(tr, p, n) == RcvdIn(tr, p, n) + DisposedIn(tr, p, n))
      && (n == Current(s.ports[p]) && s.ports[p].state == Alloc ==> SentIn(tr, p, n) == RcvdIn(tr, p, n) + s.ports[p].queue)
  {
    var s0 := Init(nports, maxmsgs);
    InitOk(nports, maxmsgs);
    var none: seq<Obs> := [];
    RunTrace(s0, evs, maxmsgs, none);
    assert none + Trace(s0, evs) == Trace(s0, evs);
    RunPorts(s0, evs);
    PortEpochs(Run(s0, evs), Trace(s0, evs), p, n, maxmsgs);
  }

  lemma PortEpochs(s: Sys, tr: seq<Obs>, p: int, n: int, total: nat)
    requires Inv(s, total) && AllTraceOk(s, tr) && 0 <= p < |s.ports|
    ensures RcvdIn(tr, p, n) <= SentIn(tr, p, n)
    ensures n != Current(s.ports[p]) ==> SentIn(tr, p, n) == RcvdIn(tr, p, n) + DisposedIn(tr, p, n)
    ensures n == Current(s.ports[p]) && s.ports[p].state == Alloc ==> SentIn(tr, p, n) == RcvdIn(tr, p, n) + s.ports[p].queue
  {
    var o := s.ports[p];
    assert PortOk(o, p, s.acts, 0, 0) && TraceOk(o, p, tr);
    assert n > Current(o) ==> Unused(tr, p, n);
    assert n < Current(o) ==> Finished(tr, p, n);
  }

  lemma {:induction false} RunPorts(s: Sys, evs: seq<Event>)
    requires Legal(s, evs)
    ensures |Run(s, evs).ports| == |s.ports|
    decreases |evs|
  {
    if evs != [] {
      StepsOnePort(s, evs[0]);
      RunPorts(Step(s, evs[0]).0, evs[1..]);
    }
  }

  // ---- processes that are late

  /** The process is inside ptsend or ptrecv, and the epoch it waited in is over. */
  ghost predicate Late(s: Sys, pid: int) {
    && pid in s.acts && !s.acts[pid].Clearer? && 0 <= s.acts[pid].port < |s.ports|
    && s.acts[pid].epoch < s.ports[s.acts[pid].port].epoch
  }

  lemma StepLate(s: Sys, e: Event, pid: int)
    requires Enabled(s, e) && Late(s, pid) && e != Resume(pid) && e != Kill(pid)
    ensures Late(Step(s, e).0, pid)
  {
    StepsOnePort(s, e);
    StepEpoch(s, e);
    StepOtherActs(s, e, pid);
  }

  lemma StepEpoch(s: Sys, e: Event)
    requires Enabled(s, e)
    ensures Step(s, e).0.ports[PortOf(s, e)].epoch >= s.ports[PortOf(s, e)].epoch
  {
  }

  /** A step of another process can wake this one, no more. */
  lemma StepOtherActs(s: Sys, e: Event, pid: int)
    requires Enabled(s, e) && pid in s.acts && e != Resume(pid) && e != Kill(pid)
    ensures pid in Step(s, e).0.acts && Step(s, e).0.acts[pid] in {s.acts[pid], Awake(s.acts[pid])}
  {
  }

  lemma {:induction false} RunLate(s: Sys, evs: seq<Event>, pid: int)
    requires Legal(s, evs) && Late(s, pid) && Resume(pid) !in evs && Kill(pid) !in evs
    ensures Late(Run(s, evs), pid)
    decreases |evs|
  {
    if evs != [] {
      assert evs[0] in evs && forall e :: e in evs[1..] ==> e in evs;
      StepLate(s, evs[0], pid);
      RunLate(Step(s, evs[0]).0, evs[1..], pid);
    }
  }

  /** A process that is inside ptsend or ptrecv when the port is reset or deleted returns SYSERR
      whenever it runs next, whatever happened to the port in between, and touches no port. */
  lemma ClearFailsWaiters(s: Sys, clearer: int, p: int, to: PState, evs: seq<Event>, pid: int, total: nat)
    requires Inv(s, total) && Enabled(s, Clear(clearer, p, to)) && Step(s, Clear(clearer, p, to)).1 == Working
    requires pid in s.acts && !s.acts[pid].Clearer? && s.acts[pid].port == p
    requires Legal(Step(s, Clear(clearer, p, to)).0, evs) && Resume(pid) !in evs && Kill(pid) !in evs
    ensures var s' := Run(Step(s, Clear(clearer, p, to)).0, evs);
      CanResume(s', pid) ==> ResumeStep(s', pid) == (s'.(acts := s'.acts - {pid}), SysErr)
  {
    assert PortOk(s.ports[p], p, s.acts, 0, 0);
    RunLate(Step(s, Clear(clearer, p, to)).0, evs, pid);
  }
}
