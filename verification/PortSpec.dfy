/** Ports as an interleaving of atomic steps. Interrupts are off inside a port operation, so other
    processes run only while it waits on a semaphore, or, when a port is cleared, where
    released processes are made ready. */
module PortSpec {
  import opened DistinctLists

  type Msg = int

  datatype PState = Free | Limbo | Alloc

  /** NoSem is a semaphore that was deleted, or that semcreate could not allocate. */
  datatype Sem = NoSem | Sem(count: int, queue: seq<int>)

  /** How far a process has come in clearing a port: it has disposed of k messages, or has
      dealt with the senders, or with the receivers too. */
  datatype Stage = Dispose(k: nat) | SendersDone | ReceiversDone

  /** What a process that has not returned from a port operation is doing. `epoch` is its copy of
      the port's sequence number; when not blocked it has been made ready, but has not run. */
  datatype Act =
    | Sender(port: int, epoch: int, msg: Msg, blocked: bool)
    | Receiver(port: int, epoch: int, blocked: bool)
    | Clearer(port: int, to: PState, stage: Stage)

  /** The messages of one epoch: those that ptsend accepted, those that ptrecv returned, those
      handed to the disposal function. */
  datatype Log = Log(sent: seq<Msg>, rcvd: seq<Msg>, disposed: seq<Msg>)

  /** A port table entry. The fields from `cap` on are not in the table; they say which
      capacity the sender semaphore was last given, which processes of this epoch have been
      released but have not run, who is clearing the port, and what has happened. */
  datatype Port = Port(state: PState, epoch: int, maxcnt: int, ssem: Sem, rsem: Sem, queue: seq<Msg>,
                       cap: int, srel: set<int>, rrel: set<int>, clearer: int, log: Log)

  datatype Sys = Sys(ports: seq<Port>, acts: map<int, Act>, nfree: int, nextid: int)

  datatype Ret = Ok | SysErr | Message(msg: Msg) | PortId(id: int) | Blocked | Working | Panic | Fault

  datatype Event =
    | Send(pid: int, port: int, msg: Msg)
    | Recv(pid: int, port: int)
    | Create(count: int, sok: bool, rok: bool)
    | Clear(pid: int, port: int, to: PState)
    | Resume(pid: int)
    | Kill(pid: int)

  const EMPTY_LOG := Log([], [], [])

  function Queue(m: Sem): seq<int> { if m.Sem? then m.queue else [] }

  function Max0(n: int): int { if n < 0 then 0 else n }

  // ---- semaphores

  function Signal(m: Sem): Sem {
    if m.NoSem? then m else Sem(m.count + 1, if m.count < 0 && m.queue != [] then m.queue[1..] else m.queue)
  }

  /** Whom a signal makes ready. */
  function Woken(m: Sem): seq<int> {
    if m.Sem? && m.count < 0 && m.queue != [] then m.queue[..1] else []
  }

  function Awake(a: Act): Act {
    match a
    case Sender(p, epoch, msg, _) => Sender(p, epoch, msg, false)
    case Receiver(p, epoch, _) => Receiver(p, epoch, false)
    case Clearer(_, _, _) => a
  }

  function Wake(acts: map<int, Act>, out: seq<int>): map<int, Act> {
    map q | q in acts :: if q in out then Awake(acts[q]) else acts[q]
  }

  function SetOf(out: seq<int>): set<int> { set q | q in out }

  // ---- the atomic steps

  /** The rest of ptsend, once the process may go on. */
  function Put(s: Sys, p: int, msg: Msg): (Sys, Ret)
    requires 0 <= p < |s.ports|
  {
    var o := s.ports[p];
    if s.nfree == 0 then (s, Panic)
    else
      var out := Woken(o.rsem);
      var o' := o.(queue := o.queue + [msg], rsem := Signal(o.rsem), rrel := o.rrel + SetOf(out), log := o.log.(sent := o.log.sent + [msg]));
      (s.(ports := s.ports[p := o'], acts := Wake(s.acts, out), nfree := s.nfree - 1), Ok)
  }

  /** The rest of ptrecv. A fault is the dereference of a null queue head. */
  function Get(s: Sys, p: int): (Sys, Ret)
    requires 0 <= p < |s.ports|
  {
    var o := s.ports[p];
    if o.queue == [] then (s, Fault)
    else
      var out := Woken(o.ssem);
      var o' := o.(queue := o.queue[1..], ssem := Signal(o.ssem), srel := o.srel + SetOf(out), log := o.log.(rcvd := o.log.rcvd + [o.queue[0]]));
      (s.(ports := s.ports[p := o'], acts := Wake(s.acts, out), nfree := s.nfree + 1), Message(o.queue[0]))
  }

  predicate Usable(s: Sys, p: int) { 0 <= p < |s.ports| && s.ports[p].state == Alloc }

  function SendCall(s: Sys, pid: int, p: int, msg: Msg): (Sys, Ret) {
    if !Usable(s, p) || s.ports[p].ssem.NoSem? then (s, SysErr)
    else
      var o := s.ports[p];
      if o.ssem.count - 1 < 0 then
        var o' := o.(ssem := Sem(o.ssem.count - 1, o.ssem.queue + [pid]));
        (s.(ports := s.ports[p := o'], acts := s.acts[pid := Sender(p, o.epoch, msg, true)]), Blocked)
      else
        Put(s.(ports := s.ports[p := o.(ssem := o.ssem.(count := o.ssem.count - 1))]), p, msg)
  }

  function RecvCall(s: Sys, pid: int, p: int): (Sys, Ret) {
    if !Usable(s, p) || s.ports[p].rsem.NoSem? then (s, SysErr)
    else
      var o := s.ports[p];
      if o.rsem.count - 1 < 0 then
        var o' := o.(rsem := Sem(o.rsem.count - 1, o.rsem.queue + [pid]));
        (s.(ports := s.ports[p := o'], acts := s.acts[pid := Receiver(p, o.epoch, true)]), Blocked)
      else
        Get(s.(ports := s.ports[p := o.(rsem := o.rsem.(count := o.rsem.count - 1))]), p)
  }

  /** The first free port at or after `id`, going round once; -1 if there is none within n. */
  function FindFree(ports: seq<Port>, id: int, n: nat): int
    requires 0 <= id < |ports|
    decreases n
  {
    if n == 0 then -1
    else if ports[id].state == Free then id
    else FindFree(ports, if id + 1 >= |ports| then 0 else id + 1, n - 1)
  }

  /** ptcreate. The table keeps only the low 16 bits of the count. */
  function CreateCall(s: Sys, count: int, sok: bool, rok: bool): (Sys, Ret)
    requires 0 <= s.nextid < |s.ports|
  {
    var id := FindFree(s.ports, s.nextid, |s.ports|);
    if count < 0 || !(0 <= id < |s.ports|) then (s, SysErr)
    else
      var o := s.ports[id];
      var o' := o.(state := Alloc, epoch := o.epoch + 1, maxcnt := count % 65536, cap := count, queue := [], log := EMPTY_LOG,
                   ssem := if sok then Sem(count, []) else NoSem, rsem := if rok then Sem(0, []) else NoSem);
      (s.(ports := s.ports[id := o'], nextid := if id + 1 >= |s.ports| then 0 else id + 1), PortId(id))
  }

  /** ptreset or ptdelete, up to the first call of the disposal function. */
  function ClearCall(s: Sys, pid: int, p: int, to: PState): (Sys, Ret) {
    if !Usable(s, p) then (s, SysErr)
    else
      var o := s.ports[p];
      var o' := o.(state := Limbo, epoch := o.epoch + 1, srel := {}, rrel := {}, clearer := pid);
      (s.(ports := s.ports[p := o'], acts := s.acts[pid := Clearer(p, to, Dispose(0))]), Working)
  }

  /** semreset or semdelete. */
  function Cleared(m: Sem, to: PState, count: int): Sem {
    if to == Alloc && m.Sem? then Sem(count, []) else NoSem
  }

  /** The next part of ptreset or ptdelete: one message, the message list and the senders, the
      receivers, the end. */
  function ClearOn(s: Sys, pid: int, p: int, to: PState, stage: Stage): (Sys, Ret)
    requires 0 <= p < |s.ports|
  {
    var o := s.ports[p];
    match stage
    case Dispose(k) =>
      if k < |o.queue| then
        (s.(ports := s.ports[p := o.(log := o.log.(disposed := o.log.disposed + [o.queue[k]]))],
            acts := s.acts[pid := Clearer(p, to, Dispose(k + 1))]), Working)
      else
        (s.(ports := s.ports[p := o.(queue := [], ssem := Cleared(o.ssem, to, o.maxcnt), cap := if to == Alloc then o.maxcnt else o.cap)],
            acts := Wake(s.acts, Queue(o.ssem))[pid := Clearer(p, to, SendersDone)], nfree := s.nfree + |o.queue|), Working)
    case SendersDone =>
      (s.(ports := s.ports[p := o.(rsem := Cleared(o.rsem, to, 0))],
          acts := Wake(s.acts, Queue(o.rsem))[pid := Clearer(p, to, ReceiversDone)]), Working)
    case ReceiversDone =>
      (s.(ports := s.ports[p := o.(state := to, cap := if to == Free then 0 else o.cap, log := EMPTY_LOG)], acts := s.acts - {pid},
          nextid := if to == Free then p else s.nextid), Ok)
  }

  predicate CanResume(s: Sys, pid: int) {
    pid in s.acts && 0 <= s.acts[pid].port < |s.ports| && (s.acts[pid].Clearer? || !s.acts[pid].blocked)
  }

  /** A released process runs: it goes on only if the port is still in the epoch it waited in. */
  function ResumeStep(s: Sys, pid: int): (Sys, Ret)
    requires CanResume(s, pid)
  {
    var a := s.acts[pid];
    var o := s.ports[a.port];
    match a
    case Clearer(p, to, stage) => ClearOn(s, pid, p, to, stage)
    case Sender(p, epoch, msg, _) =>
      if o.state != Alloc || o.epoch != epoch then (s.(acts := s.acts - {pid}), SysErr)
      else Put(s.(ports := s.ports[p := o.(srel := o.srel - {pid})], acts := s.acts - {pid}), p, msg)
    case Receiver(p, epoch, _) =>
      if o.state != Alloc || o.epoch != epoch then (s.(acts := s.acts - {pid}), SysErr)
      else Get(s.(ports := s.ports[p := o.(rrel := o.rrel - {pid})], acts := s.acts - {pid}), p)
  }

  function Leave(m: Sem, pid: int): Sem { if m.Sem? then Sem(m.count + 1, Without(m.queue, pid)) else m }

  predicate CanKill(s: Sys, pid: int) {
    pid in s.acts && 0 <= s.acts[pid].port < |s.ports| && !s.acts[pid].Clearer? && s.acts[pid].blocked
  }

  /** kill, of a process that is waiting on one of the port's semaphores. */
  function KillStep(s: Sys, pid: int): (Sys, Ret)
    requires CanKill(s, pid)
  {
    var p := s.acts[pid].port;
    var o := s.ports[p];
    var o' := if s.acts[pid].Sender? then o.(ssem := Leave(o.ssem, pid)) else o.(rsem := Leave(o.rsem, pid));
    (s.(ports := s.ports[p := o'], acts := s.acts - {pid}), Ok)
  }

  /** The event can happen now: a process makes one call at a time, only a released process can
      resume, only a blocked one is killed. */
  predicate Enabled(s: Sys, e: Event) {
    && 0 <= s.nextid < |s.ports|
    && match e
       case Send(pid, _, _) => pid !in s.acts
       case Recv(pid, _) => pid !in s.acts
       case Create(_, _, _) => true
       case Clear(pid, _, to) => pid !in s.acts && to != Limbo
       case Resume(pid) => CanResume(s, pid)
       case Kill(pid) => CanKill(s, pid)
  }

  function Step(s: Sys, e: Event): (Sys, Ret)
    requires Enabled(s, e)
  {
    match e
    case Send(pid, p, msg) => SendCall(s, pid, p, msg)
    case Recv(pid, p) => RecvCall(s, pid, p)
    case Create(count, sok, rok) => CreateCall(s, count, sok, rok)
    case Clear(pid, p, to) => ClearCall(s, pid, p, to)
    case Resume(pid) => ResumeStep(s, pid)
    case Kill(pid) => KillStep(s, pid)
  }

  /** ptinit. */
  function Init(nports: nat, maxmsgs: nat): Sys {
    Sys(seq(nports, i => Port(Free, 0, 0, NoSem, NoSem, [], 0, {}, {}, -1, EMPTY_LOG)), map[], maxmsgs, 0)
  }

  // ---- the invariant

  ghost predicate SemOk(m: Sem) {
    m.Sem? ==>
      && (m.count >= 0 ==> m.queue == [])
      && (m.count < 0 ==> |m.queue| == -m.count)
      && forall j, k :: 0 <= j < |m.queue| && 0 <= k < |m.queue| && j != k ==> m.queue[j] != m.queue[k]
  }

  /** The senders at port p: blocked ones in the semaphore's queue, released ones of this epoch in
      srel; older ones can only find out that they are late. */
  ghost predicate SendersOk(o: Port, p: int, acts: map<int, Act>) {
    && (forall q :: q in Queue(o.ssem) ==> q in acts && acts[q].Sender? && acts[q].port == p && acts[q].blocked)
    && (forall q :: q in o.srel ==> q in acts && acts[q].Sender? && acts[q].port == p && acts[q].epoch == o.epoch && !acts[q].blocked)
    && (forall q :: q in acts && acts[q].Sender? && acts[q].port == p ==>
          && acts[q].epoch <= o.epoch
          && (o.state != Alloc ==> acts[q].epoch < o.epoch)
          && (acts[q].blocked ==> q in Queue(o.ssem) && (o.state == Alloc ==> acts[q].epoch == o.epoch))
          && (!acts[q].blocked && acts[q].epoch == o.epoch ==> q in o.srel))
  }

  ghost predicate ReceiversOk(o: Port, p: int, acts: map<int, Act>) {
    && (forall q :: q in Queue(o.rsem) ==> q in acts && acts[q].Receiver? && acts[q].port == p && acts[q].blocked)
    && (forall q :: q in o.rrel ==> q in acts && acts[q].Receiver? && acts[q].port == p && acts[q].epoch == o.epoch && !acts[q].blocked)
    && (forall q :: q in acts && acts[q].Receiver? && acts[q].port == p ==>
          && acts[q].epoch <= o.epoch
          && (o.state != Alloc ==> acts[q].epoch < o.epoch)
          && (acts[q].blocked ==> q in Queue(o.rsem) && (o.state == Alloc ==> acts[q].epoch == o.epoch))
          && (!acts[q].blocked && acts[q].epoch == o.epoch ==> q in o.rrel))
  }

  ghost predicate ClearersOk(o: Port, p: int, acts: map<int, Act>) {
    && (o.state == Limbo ==> o.clearer in acts && acts[o.clearer].Clearer? && acts[o.clearer].port == p)
    && (forall q :: q in acts && acts[q].Clearer? && acts[q].port == p ==> o.state == Limbo && q == o.clearer && acts[q].to != Limbo)
  }

  /** The tokens of an allocated port, when ds sends and dr receives are under way. */
  ghost predicate TokensOk(o: Port, ds: int, dr: int) {
    && (o.ssem.Sem? ==> Max0(o.ssem.count) + |o.srel| + ds + |o.queue| == o.cap)
    && (o.ssem.NoSem? ==> o.queue == [] && o.srel == {} && ds == 0)
    && (o.rsem.Sem? ==> Max0(o.rsem.count) + |o.rrel| + dr == |o.queue|)
    && (o.rsem.NoSem? ==> o.rrel == {} && dr == 0)
    && o.log.sent == o.log.rcvd + o.queue && o.log.disposed == []
  }

  ghost predicate StageOk(o: Port, to: PState, stage: Stage) {
    match stage
    case Dispose(k) => k <= |o.queue| && o.log.sent == o.log.rcvd + o.queue && o.log.disposed == o.queue[..k]
    case SendersDone =>
      && o.queue == [] && o.log.sent == o.log.rcvd + o.log.disposed
      && (if to == Alloc && o.ssem.Sem? then o.ssem == Sem(o.maxcnt, []) && o.cap == o.maxcnt else o.ssem == NoSem)
    case ReceiversDone =>
      && o.queue == [] && o.log.sent == o.log.rcvd + o.log.disposed
      && (if to == Alloc && o.ssem.Sem? then o.ssem == Sem(o.maxcnt, []) && o.cap == o.maxcnt else o.ssem == NoSem)
      && (if to == Alloc && o.rsem.Sem? then o.rsem == Sem(0, []) else o.rsem == NoSem)
  }

  ghost predicate PortOk(o: Port, p: int, acts: map<int, Act>, ds: int, dr: int) {
    && SemOk(o.ssem) && SemOk(o.rsem) && 0 <= o.maxcnt && |o.queue| <= o.cap && (o.state != Free ==> o.maxcnt <= o.cap)
    && SendersOk(o, p, acts) && ReceiversOk(o, p, acts) && ClearersOk(o, p, acts)
    && (match o.state
        case Free => o.queue == [] && o.log == EMPTY_LOG && o.ssem == NoSem && o.rsem == NoSem && ds == dr == 0
        case Limbo => ds == dr == 0 && StageOk(o, acts[o.clearer].to, acts[o.clearer].stage)
        case Alloc => TokensOk(o, ds, dr))
  }

  /** The messages in all queues. */
  function Queued(ports: seq<Port>): nat {
    if ports == [] then 0 else |ports[|ports| - 1].queue| + Queued(ports[..|ports| - 1])
  }

  ghost predicate Inv(s: Sys, total: nat) {
    && 0 <= s.nextid < |s.ports| && 0 <= s.nfree
    && s.nfree + Queued(s.ports) == total
    && (forall q :: q in s.acts ==> 0 <= s.acts[q].port < |s.ports|)
    && (forall p {:trigger s.ports[p]} :: 0 <= p < |s.ports| ==> PortOk(s.ports[p], p, s.acts, 0, 0))
  }
}
