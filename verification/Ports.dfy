/** The port table and the message nodes as the port calls change them. Each method is one of
    the atomic steps: what a process does between two points where others may run. */
module Ports {
  import opened DistinctLists
  import opened BlockPool
  import opened PortSpec
  import opened PortSteps
  import opened PortNodes

  /** struct ptentry. The semaphores stand in the entry itself; pointers are node numbers. */
  datatype Entry = Entry(ssem: Sem, rsem: Sem, ptstate: PState, ptmaxcnt: int, ptseq: int, pthead: int, pttail: int)

  ghost function Queues(s: Sys): seq<seq<Msg>> {
    seq(|s.ports|, p requires 0 <= p < |s.ports| => s.ports[p].queue)
  }

  /** The head and tail pointers of an entry mean something. */
  ghost predicate Listed(s: Sys, p: int)
    requires 0 <= p < |s.ports|
  {
    var o := s.ports[p];
    match o.state
    case Alloc => true
    case Free => false
    case Limbo => o.clearer in s.acts && s.acts[o.clearer].Clearer? && (s.acts[o.clearer].stage.Dispose? || s.acts[o.clearer].to == Alloc)
  }

  ghost predicate Shows(e: Entry, s: Sys, p: int, l: seq<int>)
    requires 0 <= p < |s.ports|
  {
    var o := s.ports[p];
    && e.ptstate == o.state && e.ptseq == o.epoch && e.ptmaxcnt == o.maxcnt && e.ssem == o.ssem && e.rsem == o.rsem
    && (Listed(s, p) ==> e.pthead == First(l) && e.pttail == Last(l))
  }

  function NodeAt(l: seq<int>, k: nat): int { if k < |l| then l[k] else -1 }

  /** Where a process that is clearing a port has its walk pointer. */
  ghost predicate WalkOk(walks: map<int, int>, s: Sys, lists: seq<seq<int>>, q: int)
    requires |lists| == |s.ports| && q in s.acts
  {
    s.acts[q].Clearer? && s.acts[q].stage.Dispose? && 0 <= s.acts[q].port < |s.ports| ==>
      q in walks && walks[q] == NodeAt(lists[s.acts[q].port], s.acts[q].stage.k)
  }

  ghost predicate Matches(porttab: seq<Entry>, nodes: seq<Node>, walks: map<int, int>, s: Sys, pool: Pool) {
    && |porttab| == |s.ports|
    && Linked(nodes, pool, Queues(s))
    && (forall p {:trigger porttab[p]} :: 0 <= p < |porttab| ==> Shows(porttab[p], s, p, pool.lists[p]))
    && (forall q {:trigger q in s.acts} :: q in s.acts ==> WalkOk(walks, s, pool.lists, q))
  }

  /** Marks the states for which a proof needs Matches or Inv spelled out. */
  ghost predicate PortsSpelledOut(s: Sys) { true }

  /** Matches and Inv, stated so that a proof that only passes them on need not look inside. */
  ghost predicate Agrees(porttab: seq<Entry>, nodes: seq<Node>, walks: map<int, int>, s: Sys, pool: Pool) {
    && |porttab| == |s.ports| == |pool.lists|
    && forall x {:trigger PortsSpelledOut(x)} :: x == s ==> Matches(porttab, nodes, walks, x, pool)
  }

  ghost predicate Kept(s: Sys, total: nat) {
    0 <= s.nextid < |s.ports| && forall x {:trigger PortsSpelledOut(x)} :: x == s ==> Inv(x, total)
  }

  lemma StepKept(s: Sys, e: Event, total: nat)
    requires Kept(s, total) && Enabled(s, e)
    ensures Step(s, e).1 != Fault
    ensures Step(s, e).1 != Panic ==> Kept(Step(s, e).0, total)
  {
    assert PortsSpelledOut(s);
    StepKeeps(s, e, total);
  }

  /** The processes that are clearing ports are the same, and as far. */
  ghost predicate SameClearers(acts: map<int, Act>, acts': map<int, Act>) {
    && (forall q :: q in acts && acts[q].Clearer? ==> q in acts' && acts'[q] == acts[q])
    && (forall q :: q in acts' && acts'[q].Clearer? ==> q in acts && acts[q] == acts'[q])
  }

  lemma WakeSameClearers(acts: map<int, Act>, out: seq<int>)
    ensures SameClearers(acts, Wake(acts, out))
  {
  }

  /** Only port p, its entry and its list are different. */
  ghost predicate OnlyPort(porttab: seq<Entry>, s: Sys, pool: Pool, porttab': seq<Entry>, s': Sys, pool': Pool, p: int) {
    && 0 <= p < |s.ports| == |s'.ports| == |porttab| == |porttab'| == |pool.lists| == |pool'.lists|
    && s'.ports == s.ports[p := s'.ports[p]] && porttab' == porttab[p := porttab'[p]]
    && pool'.lists == pool.lists[p := pool'.lists[p]]
  }

  lemma MatchesStep(porttab: seq<Entry>, nodes: seq<Node>, walks: map<int, int>, s: Sys, pool: Pool,
                    porttab': seq<Entry>, nodes': seq<Node>, s': Sys, pool': Pool, p: int)
    requires Matches(porttab, nodes, walks, s, pool) && OnlyPort(porttab, s, pool, porttab', s', pool', p)
    requires SameClearers(s.acts, s'.acts)
    requires Linked(nodes', pool', Queues(s')) && Shows(porttab'[p], s', p, pool'.lists[p])
    requires s.ports[p].state == Limbo ==> pool'.lists[p] == pool.lists[p]
    requires forall q :: q in s.acts && s.acts[q].Clearer? && s.acts[q].port == p ==> s.ports[p].state == Limbo
    ensures Matches(porttab', nodes', walks, s', pool')
  {
    forall r | 0 <= r < |porttab'|
      ensures Shows(porttab'[r], s', r, pool'.lists[r])
    {
      assert Shows(porttab[r], s, r, pool.lists[r]);
    }
    forall q | q in s'.acts
      ensures WalkOk(walks, s', pool'.lists, q)
    {
      if q in s.acts {
        assert WalkOk(walks, s, pool.lists, q);
      }
    }
  }

  /** Likewise for a step of process pid as it clears port p. */
  lemma MatchesClear(porttab: seq<Entry>, nodes: seq<Node>, walks: map<int, int>, s: Sys, pool: Pool,
                     porttab': seq<Entry>, nodes': seq<Node>, walks': map<int, int>, s': Sys, pool': Pool, p: int, pid: int, total: nat)
    requires Matches(porttab, nodes, walks, s, pool) && OnlyPort(porttab, s, pool, porttab', s', pool', p) && Inv(s, total)
    requires SameClearers(s.acts - {pid}, s'.acts - {pid})
    requires pid in s.acts && s.acts[pid].Clearer? ==> s.acts[pid].port == p
    requires forall q :: q in s.acts && s.acts[q].Clearer? && s.acts[q].port == p ==> q == pid
    requires pid in s'.acts ==> s'.acts[pid].port == p && WalkOk(walks', s', pool'.lists, pid)
    requires forall q :: q in walks && q != pid ==> q in walks' && walks'[q] == walks[q]
    requires Linked(nodes', pool', Queues(s')) && Shows(porttab'[p], s', p, pool'.lists[p])
    ensures Matches(porttab', nodes', walks', s', pool')
  {
    forall r | 0 <= r < |porttab'|
      ensures Shows(porttab'[r], s', r, pool'.lists[r])
    {
      assert Shows(porttab[r], s, r, pool.lists[r]);
      assert PortOk(s.ports[r], r, s.acts, 0, 0);
      if r != p && s.ports[r].state == Limbo {
        assert s.ports[r].clearer in s.acts - {pid};
      }
    }
    forall q | q in s'.acts
      ensures WalkOk(walks', s', pool'.lists, q)
    {
      if q != pid && s'.acts[q].Clearer? {
        assert q in s'.acts - {pid};
        assert q in s.acts - {pid};
        assert WalkOk(walks, s, pool.lists, q);
      }
    }
  }

  /** ptrecv, up to its signal. */
  ghost function Popped(s: Sys, p: int): Sys
    requires 0 <= p < |s.ports| && s.ports[p].queue != []
  {
    var o := s.ports[p];
    s.(ports := s.ports[p := o.(queue := o.queue[1..], log := o.log.(rcvd := o.log.rcvd + [o.queue[0]]))], nfree := s.nfree + 1)
  }

  /** ptsend, up to its signal. */
  ghost function Pushed(s: Sys, p: int, msg: Msg): Sys
    requires 0 <= p < |s.ports|
  {
    var o := s.ports[p];
    s.(ports := s.ports[p := o.(queue := o.queue + [msg], log := o.log.(sent := o.log.sent + [msg]))], nfree := s.nfree - 1)
  }

  /** A port's entry when node b is its last. */
  function TailAdded(e: Entry, b: int): Entry {
    if e.pttail == -1 then e.(pttail := b, pthead := b) else e.(pttail := b)
  }

  lemma PushMatches(porttab: seq<Entry>, nodes: seq<Node>, walks: map<int, int>, s: Sys, pool: Pool, p: nat, msg: Msg)
    requires Agrees(porttab, nodes, walks, s, pool) && p < |porttab|
    requires s.ports[p].state == Alloc && Head(pool.free) != -1 && ClearersOk(s.ports[p], p, s.acts)
    ensures 0 <= Head(pool.free) < |nodes| && nodes[Head(pool.free)].next == Head(pool.free[..|pool.free| - 1])
    ensures porttab[p].pttail == Last(pool.lists[p]) && forall k :: 0 <= k < |pool.lists[p]| ==> 0 <= pool.lists[p][k] < |nodes|
    ensures pool.lists[p] == [] <==> porttab[p].pttail == -1
    ensures var b := Head(pool.free);
      Agrees(porttab[p := TailAdded(porttab[p], b)], Appended(nodes, pool.lists[p], b, msg), walks, Pushed(s, p, msg), Take(pool, p))
  {
    assert PortsSpelledOut(s);
    assert Shows(porttab[p], s, p, pool.lists[p]);
    AppendLinked(nodes, pool, Queues(s), p, msg);
    assert nodes[pool.free[|pool.free| - 1]].next == Link(pool.free, |pool.free| - 1);
    var b, s' := Head(pool.free), Pushed(s, p, msg);
    assert Queues(s') == Queues(s)[p := s.ports[p].queue + [msg]];
    MatchesStep(porttab, nodes, walks, s, pool, porttab[p := TailAdded(porttab[p], b)],
                Appended(nodes, pool.lists[p], b, msg), s', Take(pool, p), p);
  }

  /** A port's entry when the first of its nodes is gone. */
  function HeadGone(e: Entry, next: int): Entry {
    if e.pthead == e.pttail then e.(pthead := -1, pttail := -1) else e.(pthead := next)
  }

  lemma PopMatches(porttab: seq<Entry>, nodes: seq<Node>, walks: map<int, int>, s: Sys, pool: Pool, p: nat)
    requires Agrees(porttab, nodes, walks, s, pool) && p < |porttab|
    requires s.ports[p].state == Alloc && s.ports[p].queue != [] && ClearersOk(s.ports[p], p, s.acts)
    ensures pool.lists[p] != [] && 0 <= pool.lists[p][0] < |nodes| && porttab[p].pthead == pool.lists[p][0]
    ensures nodes[pool.lists[p][0]].msg == s.ports[p].queue[0]
    ensures var b := pool.lists[p][0];
      Agrees(porttab[p := HeadGone(porttab[p], nodes[b].next)], nodes[b := nodes[b].(next := Head(pool.free))], walks, Popped(s, p), GiveBack(pool, p))
  {
    assert PortsSpelledOut(s);
    assert Shows(porttab[p], s, p, pool.lists[p]);
    PopLinked(nodes, pool, Queues(s), p);
    FileBlocks(pool, p, 0, |nodes|);
    Unlinked(pool.lists[p]);
    var b, s' := pool.lists[p][0], Popped(s, p);
    assert Queues(s') == Queues(s)[p := s.ports[p].queue[1..]];
    MatchesStep(porttab, nodes, walks, s, pool, porttab[p := HeadGone(porttab[p], nodes[b].next)],
                nodes[b := nodes[b].(next := Head(pool.free))], s', GiveBack(pool, p), p);
  }

  function Created(e: Entry, count: int, sok: bool, rok: bool): Entry {
    Entry(if sok then Sem(count, []) else NoSem, if rok then Sem(0, []) else NoSem, Alloc, count % 65536, e.ptseq + 1, -1, -1)
  }

  lemma CreateMatches(porttab: seq<Entry>, nodes: seq<Node>, walks: map<int, int>, s: Sys, pool: Pool,
                      count: int, sok: bool, rok: bool, total: nat)
    requires Agrees(porttab, nodes, walks, s, pool) && Kept(s, total) && CreateCall(s, count, sok, rok).1.PortId?
    ensures var (s', r) := CreateCall(s, count, sok, rok);
      0 <= r.id < |porttab| && Agrees(porttab[r.id := Created(porttab[r.id], count, sok, rok)], nodes, walks, s', pool)
  {
    assert PortsSpelledOut(s);
    var (s', r) := CreateCall(s, count, sok, rok);
    FindFreeIs(s.ports, s.nextid, |s.ports|);
    assert Shows(porttab[r.id], s, r.id, pool.lists[r.id]) && PortOk(s.ports[r.id], r.id, s.acts, 0, 0);
    assert Holds(nodes, pool.lists[r.id], Queues(s)[r.id]);
    assert Queues(s') == Queues(s);
    MatchesStep(porttab, nodes, walks, s, pool, porttab[r.id := Created(porttab[r.id], count, sok, rok)], nodes, s', pool, r.id);
  }

  lemma ClearMatches(porttab: seq<Entry>, nodes: seq<Node>, walks: map<int, int>, s: Sys, pool: Pool,
                     pid: int, p: int, to: PState, total: nat)
    requires Agrees(porttab, nodes, walks, s, pool) && Kept(s, total) && pid !in s.acts && ClearCall(s, pid, p, to).1 == Working
    ensures var (s', r) := ClearCall(s, pid, p, to);
      Agrees(porttab[p := porttab[p].(ptstate := Limbo, ptseq := porttab[p].ptseq + 1)], nodes, walks[pid := porttab[p].pthead], s', pool)
  {
    assert PortsSpelledOut(s);
    var s' := ClearCall(s, pid, p, to).0;
    assert Shows(porttab[p], s, p, pool.lists[p]) && PortOk(s.ports[p], p, s.acts, 0, 0);
    assert Queues(s') == Queues(s);
    MatchesClear(porttab, nodes, walks, s, pool, porttab[p := porttab[p].(ptstate := Limbo, ptseq := porttab[p].ptseq + 1)],
                 nodes, walks[pid := porttab[p].pthead], s', pool, p, pid, total);
  }

  lemma DisposeMatches(porttab: seq<Entry>, nodes: seq<Node>, walks: map<int, int>, s: Sys, pool: Pool, pid: int, total: nat)
    requires Agrees(porttab, nodes, walks, s, pool) && Kept(s, total) && CanResume(s, pid) && s.acts[pid].Clearer?
    requires s.acts[pid].stage.Dispose? && s.acts[pid].stage.k < |s.ports[s.acts[pid].port].queue|
    ensures pid in walks && 0 <= walks[pid] < |nodes| && nodes[walks[pid]].msg == s.ports[s.acts[pid].port].queue[s.acts[pid].stage.k]
    ensures Agrees(porttab, nodes, walks[pid := nodes[walks[pid]].next], ResumeStep(s, pid).0, pool)
  {
    assert PortsSpelledOut(s);
    var p, k, s' := s.acts[pid].port, s.acts[pid].stage.k, ResumeStep(s, pid).0;
    var l := pool.lists[p];
    assert WalkOk(walks, s, pool.lists, pid) && Shows(porttab[p], s, p, l) && PortOk(s.ports[p], p, s.acts, 0, 0);
    assert Holds(nodes, l, Queues(s)[p]);
    assert nodes[l[k]] == Node(Queues(s)[p][k], After(l, k));
    assert Queues(s') == Queues(s);
    MatchesClear(porttab, nodes, walks, s, pool, porttab, nodes, walks[pid := nodes[walks[pid]].next], s', pool, p, pid, total);
  }

  /** A port's entry when the message list and the senders are gone. */
  function SendersCleared(e: Entry, to: PState): Entry {
    var e1 := e.(ssem := Cleared(e.ssem, to, e.ptmaxcnt));
    if to == Alloc then e1.(pthead := -1, pttail := -1) else e1
  }

  /** The nodes with a port's list in front of the free list. */
  function Spliced(nodes: seq<Node>, e: Entry, ptfree: int): seq<Node>
    requires e.pthead != -1 ==> 0 <= e.pttail < |nodes|
  {
    if e.pthead != -1 then nodes[e.pttail := nodes[e.pttail].(next := ptfree)] else nodes
  }

  lemma SpliceMatches(porttab: seq<Entry>, nodes: seq<Node>, walks: map<int, int>, s: Sys, pool: Pool, pid: int, total: nat) returns (pool': Pool)
    requires Agrees(porttab, nodes, walks, s, pool) && Kept(s, total) && CanResume(s, pid) && s.acts[pid].Clearer?
    requires s.acts[pid].stage.Dispose? && s.acts[pid].stage.k >= |s.ports[s.acts[pid].port].queue|
    ensures var p := s.acts[pid].port;
      && (porttab[p].pthead != -1 ==> 0 <= porttab[p].pttail < |nodes|)
      && porttab[p].ssem == s.ports[p].ssem
      && Head(pool'.free) == (if porttab[p].pthead != -1 then porttab[p].pthead else Head(pool.free))
      && |pool'.free| == |pool.free| + |s.ports[p].queue|
      && Agrees(porttab[p := SendersCleared(porttab[p], s.acts[pid].to)], Spliced(nodes, porttab[p], Head(pool.free)), walks, ResumeStep(s, pid).0, pool')
  {
    assert PortsSpelledOut(s);
    var p, to, s' := s.acts[pid].port, s.acts[pid].to, ResumeStep(s, pid).0;
    var l, e := pool.lists[p], porttab[p];
    assert Shows(e, s, p, l) && PortOk(s.ports[p], p, s.acts, 0, 0);
    assert Holds(nodes, l, Queues(s)[p]);
    FileBlocks(pool, p, 0, |nodes|);
    pool' := pool;
    if l != [] {
      pool' := SpliceLinked(nodes, pool, Queues(s), p);
    }
    assert Queues(s') == Queues(s)[p := []];
    WakeSameClearers(s.acts, Queue(s.ports[p].ssem));
    MatchesClear(porttab, nodes, walks, s, pool, porttab[p := SendersCleared(e, to)],
                 Spliced(nodes, e, Head(pool.free)), walks, s', pool', p, pid, total);
  }

  lemma ReceiversMatches(porttab: seq<Entry>, nodes: seq<Node>, walks: map<int, int>, s: Sys, pool: Pool, pid: int, total: nat)
    requires Agrees(porttab, nodes, walks, s, pool) && Kept(s, total) && CanResume(s, pid) && s.acts[pid].Clearer? && s.acts[pid].stage.SendersDone?
    ensures porttab[s.acts[pid].port].rsem == s.ports[s.acts[pid].port].rsem
    ensures var p := s.acts[pid].port;
      Agrees(porttab[p := porttab[p].(rsem := Cleared(porttab[p].rsem, s.acts[pid].to, 0))], nodes, walks, ResumeStep(s, pid).0, pool)
  {
    assert PortsSpelledOut(s);
    var p, to, s' := s.acts[pid].port, s.acts[pid].to, ResumeStep(s, pid).0;
    assert Shows(porttab[p], s, p, pool.lists[p]) && PortOk(s.ports[p], p, s.acts, 0, 0);
    assert Queues(s') == Queues(s);
    WakeSameClearers(s.acts, Queue(s.ports[p].rsem));
    MatchesClear(porttab, nodes, walks, s, pool, porttab[p := porttab[p].(rsem := Cleared(porttab[p].rsem, to, 0))], nodes, walks, s', pool, p, pid, total);
  }

  lemma EndMatches(porttab: seq<Entry>, nodes: seq<Node>, walks: map<int, int>, s: Sys, pool: Pool, pid: int, total: nat)
    requires Agrees(porttab, nodes, walks, s, pool) && Kept(s, total) && CanResume(s, pid) && s.acts[pid].Clearer? && s.acts[pid].stage.ReceiversDone?
    ensures var p := s.acts[pid].port;
      Agrees(porttab[p := porttab[p].(ptstate := s.acts[pid].to)], nodes, walks, ResumeStep(s, pid).0, pool)
  {
    assert PortsSpelledOut(s);
    var p, to, s' := s.acts[pid].port, s.acts[pid].to, ResumeStep(s, pid).0;
    assert Shows(porttab[p], s, p, pool.lists[p]) && PortOk(s.ports[p], p, s.acts, 0, 0);
    assert Queues(s') == Queues(s);
    MatchesClear(porttab, nodes, walks, s, pool, porttab[p := porttab[p].(ptstate := to)], nodes, walks, s', pool, p, pid, total);
  }

  /** A port's entry changes, but for its lists, and perhaps what a sender or receiver does. */
  ghost predicate PlainUpdate(s: Sys, p: int, e: Entry, e': Entry, s': Sys) {
    && |s'.ports| == |s.ports| && 0 <= p < |s.ports| && s' == s.(ports := s.ports[p := s'.ports[p]], acts := s'.acts)
    && SameClearers(s.acts, s'.acts)
    && var o, o' := s.ports[p], s'.ports[p];
       && o'.queue == o.queue && o'.state == o.state && o'.clearer == o.clearer
       && e' == Entry(o'.ssem, o'.rsem, o'.state, o'.maxcnt, o'.epoch, e.pthead, e.pttail)
  }

  lemma UpdateMatches(porttab: seq<Entry>, nodes: seq<Node>, walks: map<int, int>, s: Sys, pool: Pool, p: nat, e': Entry, s': Sys)
    requires Agrees(porttab, nodes, walks, s, pool) && p < |porttab| && PlainUpdate(s, p, porttab[p], e', s') && ClearersOk(s.ports[p], p, s.acts)
    ensures Agrees(porttab[p := e'], nodes, walks, s', pool)
  {
    assert PortsSpelledOut(s);
    assert Shows(porttab[p], s, p, pool.lists[p]);
    assert Queues(s') == Queues(s);
    MatchesStep(porttab, nodes, walks, s, pool, porttab[p := e'], nodes, s', pool, p);
  }

  class PortSystem {
    const porttab: array<Entry>
    const nodes: array<Node>
    var ptfree: int
    var ptnextid: int
    /** The local variables of processes inside a port call. */
    var acts: map<int, Act>
    var walks: map<int, int>
    ghost var st: Sys
    ghost var pool: Pool

    ghost predicate Valid()
      reads this, porttab, nodes
    {
      && Kept(st, nodes.Length)
      && ptnextid == st.nextid && acts == st.acts
      && ptfree == Head(pool.free) && |pool.free| == st.nfree
      && Agrees(porttab[..], nodes[..], walks, st, pool)
    }

    /** ptinit, with nodes that getmem supplied. */
    constructor (nports: nat, maxmsgs: nat)
      requires nports > 0 && maxmsgs > 0
      ensures Valid() && st == Init(nports, maxmsgs) && nodes.Length == maxmsgs && fresh(porttab) && fresh(nodes)
    {
      porttab := new Entry[nports](i => Entry(NoSem, NoSem, Free, 0, 0, -1, -1));
      nodes := new Node[maxmsgs](i => Node(0, -1));
      ptfree := 0;
      ptnextid := 0;
      acts := map[];
      walks := map[];
      st := Init(nports, maxmsgs);
      pool := AllFree(0, maxmsgs).(lists := seq(nports, i => []));
      new;
      var curr, next, left := 0, 0, maxmsgs - 1;
      while left > 0
        invariant 0 <= left && curr == next == maxmsgs - 1 - left
        invariant forall i :: 0 <= i < curr ==> nodes[i].next == i + 1
        invariant forall p :: 0 <= p < nports ==> porttab[p] == Entry(NoSem, NoSem, Free, 0, 0, -1, -1)
        modifies nodes
        decreases left
      {
        next := next + 1;
        nodes[curr] := nodes[curr].(next := next);
        curr := next;
        left := left - 1;
      }
      nodes[curr] := nodes[curr].(next := -1);
      InitMatches(porttab[..], nodes[..], walks, nports);
    }

    /** Valid, but in the middle of a step, when the semaphore counts may be ahead. */
    ghost predicate Shaped()
      reads this, porttab, nodes
    {
      && ptnextid == st.nextid && acts == st.acts
      && ptfree == Head(pool.free) && |pool.free| == st.nfree
      && Agrees(porttab[..], nodes[..], walks, st, pool)
    }

    /** Take a free node for the message and link it at the tail. */
    method LinkNode(p: int, msg: Msg)
      requires Shaped() && 0 <= p < porttab.Length && |st.ports| == porttab.Length && st.ports[p].state == Alloc && ptfree != -1
      requires ClearersOk(st.ports[p], p, st.acts)
      modifies this, porttab, nodes
      ensures Shaped() && st == Pushed(old(st), p, msg)
    {
      PushMatches(porttab[..], nodes[..], walks, st, pool, p, msg);
      var e := porttab[p];
      var msgnode := ptfree;
      ptfree := nodes[msgnode].next;
      nodes[msgnode] := Node(msg, -1);
      var tailnode := e.pttail;
      if tailnode == -1 {
        porttab[p] := e.(pttail := msgnode, pthead := msgnode);
      } else {
        nodes[tailnode] := nodes[tailnode].(next := msgnode);
        porttab[p] := e.(pttail := msgnode);
      }
      assert nodes[..] == Appended(old(nodes[..]), old(pool).lists[p], msgnode, msg);
      assert porttab[..] == old(porttab[..])[p := porttab[p]];
      pool := Take(pool, p);
      st := Pushed(st, p, msg);
    }

    /** The rest of ptsend. */
    method SendRest(p: int, msg: Msg) returns (r: Ret)
      requires Shaped() && 0 <= p < porttab.Length && |st.ports| == porttab.Length && st.ports[p].state == Alloc
      requires ClearersOk(st.ports[p], p, st.acts)
      modifies this, porttab, nodes
      ensures Shaped() && Put(old(st), p, msg) == (st, r)
    {
      if ptfree == -1 {
        FreeShown();
        return Panic;
      }
      LinkNode(p, msg);
      EntryShown(p);
      var out := Woken(porttab[p].rsem);
      WakeSameClearers(st.acts, out);
      Update(p, porttab[p].(rsem := Signal(porttab[p].rsem)), Wake(acts, out), Put(old(st), p, msg).0);
      return Ok;
    }

    /** Unlink the first node of a port and free it. */
    method Unlink(p: int) returns (msg: Msg)
      requires Shaped() && 0 <= p < porttab.Length && |st.ports| == porttab.Length && st.ports[p].state == Alloc && st.ports[p].queue != []
      requires ClearersOk(st.ports[p], p, st.acts)
      modifies this, porttab, nodes
      ensures Shaped() && st == Popped(old(st), p) && msg == old(st).ports[p].queue[0]
    {
      PopMatches(porttab[..], nodes[..], walks, st, pool, p);
      var e := porttab[p];
      var msgnode := e.pthead;
      msg := nodes[msgnode].msg;
      if e.pthead == e.pttail {
        porttab[p] := e.(pthead := -1, pttail := -1);
      } else {
        porttab[p] := e.(pthead := nodes[msgnode].next);
      }
      nodes[msgnode] := nodes[msgnode].(next := ptfree);
      ptfree := msgnode;
      pool := GiveBack(pool, p);
      st := Popped(st, p);
      assert nodes[..] == old(nodes[..])[msgnode := nodes[msgnode]];
      assert porttab[..] == old(porttab[..])[p := porttab[p]];
    }

    /** The rest of ptrecv. */
    method RecvRest(p: int) returns (r: Ret)
      requires Shaped() && 0 <= p < porttab.Length && |st.ports| == porttab.Length && st.ports[p].state == Alloc && st.ports[p].queue != []
      requires ClearersOk(st.ports[p], p, st.acts)
      modifies this, porttab, nodes
      ensures Shaped() && Get(old(st), p) == (st, r)
    {
      var msg := Unlink(p);
      EntryShown(p);
      var out := Woken(porttab[p].ssem);
      WakeSameClearers(st.acts, out);
      Update(p, porttab[p].(ssem := Signal(porttab[p].ssem)), Wake(acts, out), Get(old(st), p).0);
      return Message(msg);
    }

    method Update(p: int, e: Entry, acts': map<int, Act>, ghost s': Sys)
      requires Shaped() && 0 <= p < porttab.Length && |st.ports| == porttab.Length && ClearersOk(st.ports[p], p, st.acts)
      requires PlainUpdate(st, p, porttab[p], e, s') && acts' == s'.acts
      modifies this, porttab
      ensures Shaped() && st == s'
    {
      UpdateMatches(porttab[..], nodes[..], walks, st, pool, p, e, s');
      porttab[p] := e;
      acts := acts';
      st := s';
      assert porttab[..] == old(porttab[..])[p := e];
    }

    method Ptsend(pid: int, portid: int, msg: Msg) returns (r: Ret)
      requires Valid() && pid !in acts
      modifies this, porttab, nodes
      ensures r != Panic ==> Valid()
      ensures SendCall(old(st), pid, portid, msg) == (st, r)
    {
      PortShown(portid);
      if portid < 0 || portid >= porttab.Length || porttab[portid].ptstate != Alloc || porttab[portid].ssem.NoSem? {
        return SysErr;
      }
      StepKept(st, Send(pid, portid, msg), nodes.Length);
      var e := porttab[portid];
      ghost var o := st.ports[portid];
      if e.ssem.count - 1 < 0 {
        var ssem := Sem(e.ssem.count - 1, e.ssem.queue + [pid]);
        Update(portid, e.(ssem := ssem), acts[pid := Sender(portid, e.ptseq, msg, true)], SendCall(st, pid, portid, msg).0);
        return Blocked;
      }
      var ssem := e.ssem.(count := e.ssem.count - 1);
      Update(portid, e.(ssem := ssem), acts, st.(ports := st.ports[portid := o.(ssem := ssem)]));
      r := SendRest(portid, msg);
    }

    method Ptrecv(pid: int, portid: int) returns (r: Ret)
      requires Valid() && pid !in acts
      modifies this, porttab, nodes
      ensures Valid() && r != Fault && RecvCall(old(st), pid, portid) == (st, r)
    {
      PortShown(portid);
      if portid < 0 || portid >= porttab.Length || porttab[portid].ptstate != Alloc || porttab[portid].rsem.NoSem? {
        return SysErr;
      }
      StepKept(st, Recv(pid, portid), nodes.Length);
      var e := porttab[portid];
      ghost var o := st.ports[portid];
      if e.rsem.count - 1 < 0 {
        var rsem := Sem(e.rsem.count - 1, e.rsem.queue + [pid]);
        Update(portid, e.(rsem := rsem), acts[pid := Receiver(portid, e.ptseq, true)], RecvCall(st, pid, portid).0);
        return Blocked;
      }
      var rsem := e.rsem.(count := e.rsem.count - 1);
      Update(portid, e.(rsem := rsem), acts, st.(ports := st.ports[portid := o.(rsem := rsem)]));
      r := RecvRest(portid);
    }

    /** What the table shows of a port. */
    lemma EntryShown(p: int)
      requires Shaped()
      ensures porttab.Length == |st.ports| == |pool.lists|
      ensures 0 <= p < porttab.Length ==> Shows(porttab[p], st, p, pool.lists[p])
    {
      assert PortsSpelledOut(st);
      if 0 <= p < porttab.Length {
        assert Shows(porttab[..][p], st, p, pool.lists[p]);
      }
    }

    lemma FreeShown()
      requires Shaped()
      ensures ptfree == -1 <==> st.nfree == 0
    {
      assert PortsSpelledOut(st);
      HeadOk(pool, 0, nodes.Length);
    }

    /** What is known of a port between the steps. */
    lemma PortShown(p: int)
      requires Valid()
      ensures porttab.Length == |st.ports| == |pool.lists|
      ensures 0 <= p < porttab.Length ==> Shows(porttab[p], st, p, pool.lists[p]) && ClearersOk(st.ports[p], p, st.acts)
      ensures 0 <= p < porttab.Length && st.ports[p].state == Alloc && st.ports[p].rsem.Sem? && st.ports[p].rsem.count > 0 ==> st.ports[p].queue != []
    {
      EntryShown(p);
      assert PortsSpelledOut(st);
      if 0 <= p < porttab.Length {
        assert PortOk(st.ports[p], p, st.acts, 0, 0);
      }
    }

    /** The scan of ptcreate: the first free entry from ptnextid on, which moves past it. */
    method NextFree() returns (ptnum: int)
      requires 0 <= ptnextid < porttab.Length == |st.ports| && forall p :: 0 <= p < porttab.Length ==> porttab[p].ptstate == st.ports[p].state
      modifies this`ptnextid
      ensures ptnum == FindFree(st.ports, old(ptnextid), porttab.Length)
      ensures ptnextid == if ptnum == -1 then old(ptnextid) else if ptnum + 1 >= porttab.Length then 0 else ptnum + 1
    {
      var i := 0;
      ghost var n, start := porttab.Length, ptnextid;
      while i < porttab.Length
        invariant 0 <= i <= n && ptnextid == (if start + i >= n then start + i - n else start + i)
        invariant FindFree(st.ports, start, n) == FindFree(st.ports, if ptnextid == n then 0 else ptnextid, n - i)
      {
        ptnum := ptnextid;
        ptnextid := ptnextid + 1;
        if ptnextid >= porttab.Length {
          ptnextid := 0;
        }
        if porttab[ptnum].ptstate == Free {
          return;
        }
        i := i + 1;
      }
      ptnum := -1;
    }

    /** ptcreate; whether semcreate finds free semaphores is up to the rest of the system. */
    method Ptcreate(count: int, sok: bool, rok: bool) returns (r: Ret)
      requires Valid()
      modifies this, porttab
      ensures Valid() && CreateCall(old(st), count, sok, rok) == (st, r)
    {
      if count < 0 {
        return SysErr;
      }
      StepKept(st, Create(count, sok, rok), nodes.Length);
      FindFreeIs(st.ports, st.nextid, |st.ports|);
      forall p | 0 <= p < porttab.Length
        ensures porttab[p].ptstate == st.ports[p].state
      {
        EntryShown(p);
      }
      var ptnum := NextFree();
      if ptnum == -1 {
        return SysErr;
      }
      CreateMatches(porttab[..], nodes[..], walks, st, pool, count, sok, rok, nodes.Length);
      porttab[ptnum] := Created(porttab[ptnum], count, sok, rok);
      st := CreateCall(st, count, sok, rok).0;
      assert porttab[..] == old(porttab[..])[ptnum := porttab[ptnum]];
      return PortId(ptnum);
    }

    /** ptreset or ptdelete, up to the first message to dispose of. */
    method Ptclear(pid: int, portid: int, to: PState) returns (r: Ret)
      requires Valid() && pid !in acts && to != Limbo
      modifies this, porttab
      ensures Valid() && ClearCall(old(st), pid, portid, to) == (st, r)
    {
      PortShown(portid);
      if portid < 0 || portid >= porttab.Length || porttab[portid].ptstate != Alloc {
        return SysErr;
      }
      StepKept(st, Clear(pid, portid, to), nodes.Length);
      ClearMatches(porttab[..], nodes[..], walks, st, pool, pid, portid, to, nodes.Length);
      porttab[portid] := porttab[portid].(ptstate := Limbo, ptseq := porttab[portid].ptseq + 1);
      walks := walks[pid := porttab[portid].pthead];
      acts := acts[pid := Clearer(portid, to, Dispose(0))];
      st := ClearCall(st, pid, portid, to).0;
      assert porttab[..] == old(porttab[..])[portid := porttab[portid]];
      return Working;
    }

    /** The disposal function gets the message at the walk pointer. */
    method DisposeNext(pid: int) returns (r: Ret, msg: Msg)
      requires Valid() && Clearing(pid) && acts[pid].stage.Dispose? && acts[pid].stage.k < |st.ports[acts[pid].port].queue|
      modifies this
      ensures Valid() && ResumeStep(old(st), pid) == (st, r)
      ensures msg == old(st).ports[old(acts)[pid].port].queue[old(acts)[pid].stage.k]
    {
      StepKept(st, Event.Resume(pid), nodes.Length);
      DisposeMatches(porttab[..], nodes[..], walks, st, pool, pid, nodes.Length);
      var a := acts[pid];
      msg := nodes[walks[pid]].msg;
      walks := walks[pid := nodes[walks[pid]].next];
      acts := acts[pid := Clearer(a.port, a.to, Dispose(a.stage.k + 1))];
      st := ResumeStep(st, pid).0;
      r := Working;
    }

    /** The walk is over: the whole list goes in front of the free list, and the sender semaphore
        is reset or deleted. */
    method ClearSenders(pid: int) returns (r: Ret)
      requires Valid() && Clearing(pid) && acts[pid].stage.Dispose? && acts[pid].stage.k >= |st.ports[acts[pid].port].queue|
      modifies this, porttab, nodes
      ensures Valid() && ResumeStep(old(st), pid) == (st, r)
    {
      StepKept(st, Event.Resume(pid), nodes.Length);
      ghost var pool' := SpliceMatches(porttab[..], nodes[..], walks, st, pool, pid, nodes.Length);
      var a := acts[pid];
      var p, e := a.port, porttab[a.port];
      if e.pthead != -1 {
        nodes[e.pttail] := nodes[e.pttail].(next := ptfree);
        ptfree := e.pthead;
      }
      porttab[p] := SendersCleared(e, a.to);
      acts := Wake(acts, Queue(e.ssem))[pid := Clearer(p, a.to, SendersDone)];
      st := ResumeStep(st, pid).0;
      pool := pool';
      r := Working;
      assert porttab[..] == old(porttab[..])[p := porttab[p]];
      assert nodes[..] == Spliced(old(nodes[..]), e, old(ptfree));
    }

    /** The receiver semaphore is reset or deleted. */
    method ClearReceivers(pid: int) returns (r: Ret)
      requires Valid() && Clearing(pid) && acts[pid].stage.SendersDone?
      modifies this, porttab
      ensures Valid() && ResumeStep(old(st), pid) == (st, r)
    {
      StepKept(st, Event.Resume(pid), nodes.Length);
      ReceiversMatches(porttab[..], nodes[..], walks, st, pool, pid, nodes.Length);
      var a := acts[pid];
      var p, e := a.port, porttab[a.port];
      porttab[p] := e.(rsem := Cleared(e.rsem, a.to, 0));
      acts := Wake(acts, Queue(e.rsem))[pid := Clearer(p, a.to, ReceiversDone)];
      st := ResumeStep(st, pid).0;
      r := Working;
      assert porttab[..] == old(porttab[..])[p := porttab[p]];
    }

    /** The end of ptreset or ptdelete. */
    method ClearEnd(pid: int) returns (r: Ret)
      requires Valid() && Clearing(pid) && acts[pid].stage.ReceiversDone?
      modifies this, porttab
      ensures Valid() && ResumeStep(old(st), pid) == (st, r)
    {
      StepKept(st, Event.Resume(pid), nodes.Length);
      EndMatches(porttab[..], nodes[..], walks, st, pool, pid, nodes.Length);
      var a := acts[pid];
      porttab[a.port] := porttab[a.port].(ptstate := a.to);
      if a.to == Free {
        ptnextid := a.port;
      }
      acts := acts - {pid};
      st := ResumeStep(st, pid).0;
      r := Ok;
      assert porttab[..] == old(porttab[..])[a.port := porttab[a.port]];
    }

    ghost predicate Clearing(pid: int)
      reads this
    {
      pid in acts && acts[pid].Clearer? && CanResume(st, pid)
    }

    /** A process that was released, or is clearing a port, runs on. */
    method Resume(pid: int) returns (r: Ret)
      requires Valid() && CanResume(st, pid)
      modifies this, porttab, nodes
      ensures r != Panic ==> Valid()
      ensures ResumeStep(old(st), pid) == (st, r)
    {
      var a := acts[pid];
      PortShown(a.port);
      match a
      case Clearer(p, to, stage) =>
        match stage {
          case Dispose(k) =>
            WalkShown(pid);
            if walks[pid] != -1 {
              var msg;
              r, msg := DisposeNext(pid);
            } else {
              r := ClearSenders(pid);
            }
          case SendersDone => r := ClearReceivers(pid);
          case ReceiversDone => r := ClearEnd(pid);
        }
      case Sender(p, epoch, msg, blocked) =>
        StepKept(st, Event.Resume(pid), nodes.Length);
        ghost var o := st.ports[p];
        if porttab[p].ptstate != Alloc || porttab[p].ptseq != epoch {
          Update(p, porttab[p], acts - {pid}, ResumeStep(st, pid).0);
          r := SysErr;
        } else {
          Update(p, porttab[p], acts - {pid}, st.(ports := st.ports[p := o.(srel := o.srel - {pid})], acts := acts - {pid}));
          r := SendRest(p, msg);
        }
      case Receiver(p, epoch, blocked) =>
        StepKept(st, Event.Resume(pid), nodes.Length);
        ghost var o := st.ports[p];
        if porttab[p].ptstate != Alloc || porttab[p].ptseq != epoch {
          Update(p, porttab[p], acts - {pid}, ResumeStep(st, pid).0);
          r := SysErr;
        } else {
          Update(p, porttab[p], acts - {pid}, st.(ports := st.ports[p := o.(rrel := o.rrel - {pid})], acts := acts - {pid}));
          r := RecvRest(p);
        }
    }

    lemma WalkShown(pid: int)
      requires Valid() && Clearing(pid) && acts[pid].stage.Dispose?
      ensures pid in walks && (walks[pid] == -1 <==> acts[pid].stage.k >= |st.ports[acts[pid].port].queue|)
    {
      assert PortsSpelledOut(st);
      var p := acts[pid].port;
      assert WalkOk(walks, st, pool.lists, pid);
      assert Holds(nodes[..], pool.lists[p], Queues(st)[p]);
      FileBlocks(pool, p, 0, nodes.Length);
    }

    /** kill, of a process that waits at a port. */
    method Kill(pid: int) returns (r: Ret)
      requires Valid() && CanKill(st, pid)
      modifies this, porttab
      ensures Valid() && KillStep(old(st), pid) == (st, r)
    {
      StepKept(st, Event.Kill(pid), nodes.Length);
      var p := acts[pid].port;
      PortShown(p);
      var e := porttab[p];
      if acts[pid].Sender? {
        Update(p, e.(ssem := Leave(e.ssem, pid)), acts - {pid}, KillStep(st, pid).0);
      } else {
        Update(p, e.(rsem := Leave(e.rsem, pid)), acts - {pid}, KillStep(st, pid).0);
      }
      r := Ok;
    }
  }

  /** A list without its first node. */
  lemma Unlinked(l: seq<int>)
    requires l != [] && Distinct(l)
    ensures if First(l) == Last(l) then l[1..] == [] else l[1..] != [] && Last(l[1..]) == Last(l)
  {
    if |l| > 1 {
      assert l[0] != l[|l| - 1];
    }
  }

  lemma InitMatches(porttab: seq<Entry>, nodes: seq<Node>, walks: map<int, int>, nports: nat)
    requires nports > 0 && nodes != []
    requires |porttab| == nports && forall p :: 0 <= p < nports ==> porttab[p] == Entry(NoSem, NoSem, Free, 0, 0, -1, -1)
    requires forall i :: 0 <= i < |nodes| ==> nodes[i].next == if i + 1 < |nodes| then i + 1 else -1
    ensures var pool := AllFree(0, |nodes|).(lists := seq(nports, i => []));
      Matches(porttab, nodes, walks, Init(nports, |nodes|), pool) && Head(pool.free) == 0
    ensures Inv(Init(nports, |nodes|), |nodes|)
  {
    var s, pool := Init(nports, |nodes|), AllFree(0, |nodes|).(lists := seq(nports, i => []));
    InitOk(nports, |nodes|);
    AllFreeOk(0, |nodes|);
    ResizeKeeps(AllFree(0, |nodes|), pool.lists, 0, |nodes|);
    ChainLinked(nodes);
    assert AllHold(nodes, pool.lists, Queues(s)) by {
      forall p | 0 <= p < nports
        ensures Holds(nodes, pool.lists[p], Queues(s)[p])
      {
      }
    }
  }

  lemma ChainLinked(nodes: seq<Node>)
    requires nodes != [] && forall i :: 0 <= i < |nodes| ==> nodes[i].next == if i + 1 < |nodes| then i + 1 else -1
    ensures var free := AllFree(0, |nodes|).free; FreeLinked(nodes, free) && Head(free) == 0
  {
    var free := AllFree(0, |nodes|).free;
    forall k | 0 <= k < |free|
      ensures 0 <= free[k] < |nodes| && nodes[free[k]].next == Link(free, k)
    {
      assert free[k] == Place(|nodes|, k);
      if k > 0 {
        assert free[k - 1] == Place(|nodes|, k - 1);
      }
    }
    assert free[|nodes| - 1] == Place(|nodes|, |nodes| - 1);
  }
}
