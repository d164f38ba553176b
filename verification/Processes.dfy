/** The process table, the semaphore table and the queue table as the system calls change them. */
module Processes {
  import opened DistinctLists
  import opened Links
  import opened QueueTable
  import S = ProcessSpec
  import T = ProcessSteps
  import C = ProcessCalls
  import P = ProcessKeeps
  import K = ProcessClock

  const EMPTY := -1
  const MAXKEY := 0x7FFF_FFFF
  const SYSERR := -1

  class ProcessTable {
    const proctab: array<S.Proc>
    const semtab: array<S.Sem>
    /** qkey and, in links, qnext and qprev of the queue table. */
    const qkey: array<int>
    const links: array<Link>
    /** What each process has still to do when it runs again: a place in the code, and a stack. */
    const pend: array<S.Pending>
    var currpid: int
    var nextsem: int
    /** The entry at which newqueue puts the next queue. */
    var nextqid: int
    var preempt: int
    var ndefers: int
    var attempt: bool
    ghost var st: S.Kernel
    /** The queues as they are linked, and on which one every process is. */
    ghost var lists: seq<seq<int>>
    ghost var place: seq<int>

    ghost predicate Tab()
      reads this, qkey, links
    {
      && Table(proctab.Length, links[..], lists, place) && |lists| == semtab.Length + 2 && qkey.Length == links.Length
      && forall i {:trigger HeadOf(proctab.Length, i)} {:trigger TailOf(proctab.Length, i)} :: 0 <= i < |lists| ==>
           qkey[HeadOf(proctab.Length, i)] == MAXKEY && qkey[TailOf(proctab.Length, i)] == S.MINKEY
    }

    /** The key fields of the processes. */
    ghost function Keys(): seq<int>
      reads qkey
      requires qkey.Length >= proctab.Length
    {
      qkey[..proctab.Length]
    }

    /** sysinit, as far as processes go: the null process runs, nothing else exists. The queues get
        their entries from newqueue, one after the other. */
    constructor (nproc: nat, nsem: nat)
      requires nproc > 0 && nsem > 0
      ensures Valid() && st == Boot(nproc, nsem) && proctab.Length == nproc && semtab.Length == nsem && nextqid == links.Length
      ensures fresh(proctab) && fresh(semtab) && fresh(qkey) && fresh(links) && fresh(pend)
    {
      hide Boot, S.Inv, S.QueueOf, Table, S.Sized;
      proctab := new S.Proc[nproc](i => if i == S.NULLPROC then S.Proc(S.PrCurr, 0, 0, false, 0) else S.Proc(S.PrFree, 0, 0, false, 0));
      semtab := new S.Sem[nsem](i => S.Sem(false, 0));
      pend := new S.Pending[nproc](i => S.Nothing);
      links := new Link[nproc + 2 * (nsem + 2)](i => Link(0, 0));
      qkey := new int[nproc + 2 * (nsem + 2)](i => 0);
      currpid := S.NULLPROC;
      nextsem := 0;
      nextqid := nproc;
      preempt := S.QUANTUM;
      ndefers := 0;
      attempt := false;
      lists := seq(nsem + 2, i => []);
      place := seq(nproc, i => -1);
      new;
      SetUp();
    }

    /** The tables as they are when the null process has been made. */
    ghost predicate Blank()
      reads this, proctab, semtab, qkey, links, pend
    {
      && 0 < proctab.Length == pend.Length == |place| && 0 < semtab.Length == |lists| - 2
      && qkey.Length == links.Length == proctab.Length + 2 * |lists| && nextqid == proctab.Length
      && currpid == S.NULLPROC && nextsem == 0 && preempt == S.QUANTUM && ndefers == 0
      && (forall i :: 0 <= i < proctab.Length ==> proctab[i] == if i == S.NULLPROC then S.Proc(S.PrCurr, 0, 0, false, 0) else S.Proc(S.PrFree, 0, 0, false, 0))
      && (forall i :: 0 <= i < proctab.Length ==> pend[i] == S.Nothing && qkey[i] == 0 && place[i] == -1)
      && (forall i :: 0 <= i < semtab.Length ==> semtab[i] == S.Sem(false, 0)) && forall i :: 0 <= i < |lists| ==> lists[i] == []
    }

    /** The rest of sysinit. */
    method SetUp()
      requires Blank()
      modifies links, qkey, this`nextqid, this`st
      ensures Valid() && st == Boot(proctab.Length, semtab.Length) && nextqid == links.Length
    {
      hide Boot, S.Inv, K.OnTime, TableCore;
      BootIs(proctab.Length, semtab.Length, proctab[..], semtab[..], pend[..], Keys());
      BootInv(proctab.Length, semtab.Length);
      st := Boot(proctab.Length, semtab.Length);
      AllQueues();
    }

    /** The queue table, as sysinit and clkinit leave it. */
    method AllQueues()
      requires links.Length == qkey.Length == proctab.Length + 2 * (semtab.Length + 2) && nextqid == proctab.Length
      requires |lists| == semtab.Length + 2 && |place| == proctab.Length
      requires (forall i :: 0 <= i < |lists| ==> lists[i] == []) && forall p :: 0 <= p < |place| ==> place[p] == -1
      modifies links, qkey, this`nextqid
      ensures Tab() && Keys() == old(Keys()) && nextqid == links.Length
    {
      hide TableCore;
      Newqueues(semtab.Length + 2);
      EmptyTable(proctab.Length, links[..], lists, place);
    }

    /** All queues, as sysinit and clkinit ask for them. */
    method Newqueues(n: nat)
      requires links.Length == qkey.Length == proctab.Length + 2 * n && nextqid == proctab.Length
      modifies links, qkey, this`nextqid
      ensures forall r {:trigger HeadOf(proctab.Length, r)} {:trigger TailOf(proctab.Length, r)} :: 0 <= r < n ==> EmptyQueue(r)
      ensures qkey[..proctab.Length] == old(qkey[..proctab.Length]) && nextqid == links.Length
    {
      var i := 0;
      while i < n
        invariant 0 <= i <= n && nextqid == HeadOf(proctab.Length, i)
        invariant forall r :: 0 <= r < i ==> EmptyQueue(r)
        invariant qkey[..proctab.Length] == old(qkey[..proctab.Length])
      {
        label L:
        var _ := Newqueue(i);
        forall r | 0 <= r < i
          ensures EmptyQueue(r)
        {
          assert old@L(EmptyQueue(r));
          assert links[HeadOf(proctab.Length, r)] == old@L(links[HeadOf(proctab.Length, r)]) && links[TailOf(proctab.Length, r)] == old@L(links[TailOf(proctab.Length, r)]);
        }
        i := i + 1;
      }
    }

    /** The head and the tail of queue i are there, and linked to each other. */
    ghost predicate EmptyQueue(i: int)
      reads links, qkey
    {
      && 0 <= i && TailOf(proctab.Length, i) < links.Length == qkey.Length
      && links[HeadOf(proctab.Length, i)] == Link(TailOf(proctab.Length, i), EMPTY) && qkey[HeadOf(proctab.Length, i)] == MAXKEY
      && links[TailOf(proctab.Length, i)] == Link(EMPTY, HeadOf(proctab.Length, i)) && qkey[TailOf(proctab.Length, i)] == S.MINKEY
    }

    /** newqueue's test for a full table. */
    method QueuesFull() returns (full: bool)
      ensures full <==> RefusesAt(nextqid, links.Length)
    {
      full := nextqid > links.Length;
    }

    /** newqueue, for queue i. Its test refuses only what lies beyond the end of the table: once
        nextqid is at the end there is no room and no refusal, and the code writes past the table. */
    method Newqueue(ghost i: int) returns (r: int)
      requires 0 <= i && nextqid == HeadOf(proctab.Length, i) && links.Length == qkey.Length && (links.Length - proctab.Length) % 2 == 0
      requires nextqid != links.Length
      modifies links, qkey, this`nextqid
      ensures if old(nextqid) > links.Length then r == SYSERR && nextqid == old(nextqid) && links[..] == old(links[..]) && qkey[..] == old(qkey[..])
              else r == old(nextqid) && nextqid == HeadOf(proctab.Length, i + 1) && EmptyQueue(i)
      ensures forall x :: 0 <= x < links.Length && x != HeadOf(proctab.Length, i) && x != TailOf(proctab.Length, i) ==>
                links[x] == old(links[x]) && qkey[x] == old(qkey[x])
    {
      var full := QueuesFull();
      if full {
        return SYSERR;
      }
      var q := nextqid;
      nextqid := nextqid + 2;
      var head, tail := q, q + 1;
      links[head] := Link(tail, EMPTY);
      qkey[head] := MAXKEY;
      links[tail] := Link(EMPTY, head);
      qkey[tail] := S.MINKEY;
      r := q;
    }

    // ---- the queue table

    /** getitem. */
    method Getitem(pid: int)
      requires Tab() && 0 <= pid < proctab.Length && 0 <= place[pid] < |lists|
      modifies links, this`lists, this`place
      ensures Tab() && lists == old(lists)[old(place)[pid] := Without(old(lists)[old(place)[pid]], pid)] && place == old(place)[pid := -1]
      ensures links[pid] == old(links[pid])
    {
      ghost var j := OnList(pid);
      Neighbours(proctab.Length, links[..], lists, place, pid, j);
      Removes(proctab.Length, links[..], lists, place, pid, j);
      var next := links[pid].next;
      var prev := links[pid].prev;
      links[prev] := links[prev].(next := next);
      links[next] := links[next].(prev := prev);
      assert links[..] == Removed(old(links[..]), pid);
      lists := lists[place[pid] := Without(lists[place[pid]], pid)];
      place := place[pid := -1];
    }

    /** Where on its queue a process is. */
    lemma OnList(pid: int) returns (j: nat)
      requires Tab() && 0 <= pid < proctab.Length && 0 <= place[pid] < |lists|
      ensures j < |lists[place[pid]]| && lists[place[pid]][j] == pid
    {
      assert TableSpelledOut(links[..]);
      assert Placed(lists, place, pid);
      j :| j < |lists[place[pid]]| && lists[place[pid]][j] == pid;
    }

    /** The first process of queue i, or a number that is no process. */
    method Firstid(i: int) returns (p: int)
      requires Tab() && 0 <= i < |lists|
      ensures p == links[HeadOf(proctab.Length, i)].next && 0 <= p < qkey.Length
      ensures if lists[i] == [] then p == TailOf(proctab.Length, i) else p == lists[i][0] && p < proctab.Length
    {
      LinksAt(proctab.Length, links[..], lists, place, i, 0);
      assert Full(proctab.Length, lists, i)[1] == if lists[i] == [] then TailOf(proctab.Length, i) else lists[i][0];
      p := links[HeadOf(proctab.Length, i)].next;
    }

    /** getfirst. */
    method Getfirst(i: int) returns (pid: int)
      requires Tab() && 0 <= i < |lists|
      modifies links, this`lists, this`place
      ensures old(lists)[i] == [] ==> pid == EMPTY && lists == old(lists) && place == old(place) && links[..] == old(links[..])
      ensures old(lists)[i] != [] ==> pid == old(lists)[i][0] && 0 <= pid < proctab.Length && old(place)[pid] == i
      ensures old(lists)[i] != [] ==> lists == old(lists)[i := old(lists)[i][1..]] && place == old(place)[pid := -1]
      ensures Tab()
    {
      var first := Firstid(i);
      if first >= proctab.Length {
        return EMPTY;
      }
      pid := first;
      assert place[pid] == i by {
        assert TableSpelledOut(links[..]);
        assert QueueLinked(proctab.Length, links[..], lists, place, i);
      }
      assert Without(lists[i], pid) == lists[i][1..];
      Getitem(pid);
    }

    /** dequeue. */
    method Dequeue(i: int) returns (pid: int)
      requires Tab() && 0 <= i < |lists|
      modifies links, this`lists, this`place
      ensures old(lists)[i] == [] ==> pid == EMPTY && lists == old(lists) && place == old(place)
      ensures old(lists)[i] != [] ==> pid == old(lists)[i][0] && 0 <= pid < proctab.Length && old(place)[pid] == i
      ensures old(lists)[i] != [] ==> lists == old(lists)[i := old(lists)[i][1..]] && place == old(place)[pid := -1]
      ensures Tab()
    {
      pid := Getfirst(i);
      if pid == EMPTY {
        return;
      }
      ghost var before := links[..];
      Unlists(proctab.Length, before, before[pid := Link(EMPTY, EMPTY)], lists, place, pid);
      links[pid] := links[pid].(prev := EMPTY);
      links[pid] := links[pid].(next := EMPTY);
      assert links[..] == before[pid := Link(EMPTY, EMPTY)];
    }

    /** Process pid between the entries prev and next, which are neighbours at place j of queue i. */
    method LinkIn(pid: int, prev: int, next: int, ghost i: int, ghost j: nat)
      requires Tab() && 0 <= i < |lists| && 0 <= pid < proctab.Length && place[pid] == -1 && j <= |lists[i]|
      requires prev == Full(proctab.Length, lists, i)[j] && next == Full(proctab.Length, lists, i)[j + 1]
      modifies links, this`lists, this`place
      ensures Tab() && lists == old(lists)[i := S.InsertAt(old(lists)[i], j, pid)] && place == old(place)[pid := i]
    {
      Inserts(proctab.Length, links[..], lists, place, i, j, pid);
      LinksAt(proctab.Length, links[..], lists, place, i, j);
      Apart(proctab.Length, links[..], lists, place, i, j, pid);
      links[pid] := links[pid].(next := next);
      links[pid] := links[pid].(prev := prev);
      links[prev] := links[prev].(next := pid);
      links[next] := links[next].(prev := pid);
      assert links[..] == Inserted(old(links[..]), pid, prev, next);
      lists := lists[i := S.InsertAt(lists[i], j, pid)];
      place := place[pid := i];
    }

    /** enqueue. */
    method Enqueue(pid: int, i: int)
      requires Tab() && 0 <= i < |lists| && 0 <= pid < proctab.Length && place[pid] == -1
      modifies links, this`lists, this`place
      ensures Tab() && lists == old(lists)[i := old(lists)[i] + [pid]] && place == old(place)[pid := i]
    {
      var tail := TailOf(proctab.Length, i);
      ghost var l := lists[i];
      LinksAt(proctab.Length, links[..], lists, place, i, |l|);
      var prev := links[tail].prev;
      LinkIn(pid, prev, tail, i, |l|);
      assert S.InsertAt(l, |l|, pid) == l + [pid];
    }

    /** The walk of insert: past all whose key is not smaller. */
    method InsertPlace(i: int, key: int) returns (curr: int)
      requires Tab() && 0 <= i < |lists| && key > S.MINKEY
      ensures var j := S.Place(lists[i], Keys(), key); curr == Full(proctab.Length, lists, i)[j + 1] && 0 <= curr < qkey.Length
    {
      ghost var l, keys, j: nat := lists[i], Keys(), 0;
      curr := Firstid(i);
      LinksAt(proctab.Length, links[..], lists, place, i, 0);
      assert l[0..] == l;
      while qkey[curr] >= key
        invariant j <= |l| && curr == Full(proctab.Length, lists, i)[j + 1] && 0 <= curr < qkey.Length
        invariant S.Place(l, keys, key) == j + S.Place(l[j..], keys, key)
        decreases |l| - j
      {
        assert j < |l| by {
          assert qkey[TailOf(proctab.Length, i)] == S.MINKEY;
        }
        LinksAt(proctab.Length, links[..], lists, place, i, j);
        LinksAt(proctab.Length, links[..], lists, place, i, j + 1);
        assert keys[l[j]] == qkey[curr] && l[j..][0] == l[j] && l[j..][1..] == l[j + 1..];
        curr := links[curr].next;
        j := j + 1;
      }
      LinksAt(proctab.Length, links[..], lists, place, i, j);
      if j < |l| {
        assert keys[l[j]] == qkey[curr] && l[j..][0] == l[j];
      }
    }

    /** insert: behind all whose key is not smaller. */
    method Insert(pid: int, i: int, key: int)
      requires Tab() && 0 <= i < |lists| && 0 <= pid < proctab.Length && place[pid] == -1 && key > S.MINKEY
      modifies links, qkey, this`lists, this`place
      ensures Tab() && place == old(place)[pid := i] && Keys() == old(Keys())[pid := key]
      ensures lists == old(lists)[i := S.InsertAt(old(lists)[i], S.Place(old(lists)[i], old(Keys()), key), pid)]
    {
      ghost var j := S.Place(lists[i], Keys(), key);
      var curr := InsertPlace(i, key);
      LinksAt(proctab.Length, links[..], lists, place, i, j);
      var prev := links[curr].prev;
      LinkIn(pid, prev, curr, i, j);
      qkey[pid] := key;
    }

    /** The walk of insertd: past all that wake no later, with each one's key taken off the delay. */
    method InsertdPlace(i: int, d: int) returns (prev: int, next: int, key: int)
      requires Tab() && 0 <= i < |lists|
      ensures var (j, rest) := C.DeltaPlace(lists[i], Keys(), d);
        && prev == Full(proctab.Length, lists, i)[j] && next == Full(proctab.Length, lists, i)[j + 1] && 0 <= next < qkey.Length && key == rest
        && (if j < |lists[i]| then next == lists[i][j] && next < proctab.Length else next == TailOf(proctab.Length, i))
    {
      ghost var l, keys, j: nat := lists[i], Keys(), 0;
      var tail := TailOf(proctab.Length, i);
      key := d;
      prev := HeadOf(proctab.Length, i);
      next := Firstid(i);
      LinksAt(proctab.Length, links[..], lists, place, i, 0);
      assert l[0..] == l;
      while next != tail && qkey[next] <= key
        invariant j <= |l| && next == Full(proctab.Length, lists, i)[j + 1] && prev == Full(proctab.Length, lists, i)[j] && 0 <= next < qkey.Length
        invariant C.DeltaPlace(l, keys, d) == (var r := C.DeltaPlace(l[j..], keys, key); (j + r.0, r.1))
        decreases |l| - j
      {
        LinksAt(proctab.Length, links[..], lists, place, i, j);
        LinksAt(proctab.Length, links[..], lists, place, i, j + 1);
        assert keys[l[j]] == qkey[next] && l[j..][0] == l[j] && l[j..][1..] == l[j + 1..];
        key := S.Int32(key - qkey[next]);
        prev := next;
        next := links[next].next;
        j := j + 1;
      }
      LinksAt(proctab.Length, links[..], lists, place, i, j);
      if j < |l| {
        FullInner(proctab.Length, links[..], lists, place, i, j);
        assert keys[l[j]] == qkey[next] && l[j..][0] == l[j];
      }
    }

    /** insertd: behind all that wake no later, with the rest of the delay as key. */
    method Insertd(pid: int, i: int, d: int)
      requires Tab() && 0 <= i < |lists| && 0 <= pid < proctab.Length && place[pid] == -1
      modifies links, qkey, this`lists, this`place
      ensures Tab() && place == old(place)[pid := i]
      ensures var l, (j, rest) := old(lists)[i], C.DeltaPlace(old(lists)[i], old(Keys()), d);
        lists == old(lists)[i := S.InsertAt(l, j, pid)] && Keys() == C.KeyAfter(l, old(Keys()), pid, j, rest)
    {
      ghost var j := C.DeltaPlace(lists[i], Keys(), d).0;
      var tail := TailOf(proctab.Length, i);
      var prev, next, key := InsertdPlace(i, d);
      LinkIn(pid, prev, next, i, j);
      qkey[pid] := key;
      if next != tail {
        qkey[next] := S.Int32(qkey[next] - key);
      }
    }

    // ---- the process table

    ghost predicate Same()
      reads this, proctab, semtab, qkey, pend
    {
      && S.Sized(st) && qkey.Length >= proctab.Length
      && proctab[..] == st.procs && semtab[..] == st.sems && Keys() == st.key && pend[..] == st.pend
      && currpid == st.curr && nextsem == st.nextsem && preempt == st.preempt
    }

    /** The tables show st. */
    ghost predicate Whole()
      reads this, proctab, semtab, qkey, links, pend
    {
      Tab() && Same() && lists == st.q && forall p {:trigger place[p]} :: 0 <= p < proctab.Length ==> place[p] == S.QueueOf(st, p)
    }

    /** The same, but for process pid, which is off its queue and does not yet say so. */
    ghost predicate Out(pid: int)
      reads this, proctab, semtab, qkey, links, pend
    {
      && Tab() && Same() && 0 <= pid < proctab.Length && place[pid] == -1 && lists == S.OffQueue(st, pid).q
      && forall p {:trigger place[p]} :: 0 <= p < proctab.Length && p != pid ==> place[p] == S.QueueOf(st, p)
    }

    /** Between system calls. */
    ghost predicate Valid()
      reads this, proctab, semtab, qkey, links, pend
    {
      Whole() && S.Inv(st) && ndefers == 0
    }

    /** The first ready process becomes current. */
    method Switch()
      requires Whole() && st.q[S.ReadyQ(st)] != []
      modifies this, proctab, links
      ensures Whole() && st == S.Switch(old(st)) && ndefers == old(ndefers) && attempt == old(attempt)
    {
      currpid := Dequeue(semtab.Length);
      proctab[currpid] := proctab[currpid].(state := S.PrCurr);
      preempt := S.QUANTUM;
      st := S.Switch(st);
      assert proctab[..] == st.procs;
    }

    /** resched. */
    method Resched()
      requires Whole() && (ndefers == 0 ==> S.Base(st)) && 0 <= ndefers
      modifies this, proctab, qkey, links
      ensures Whole() && ndefers == old(ndefers)
      ensures st == if ndefers > 0 then old(st) else S.Resched(old(st))
      ensures attempt == (old(attempt) || ndefers > 0)
    {
      if ndefers > 0 {
        attempt := true;
        return;
      }
      CurrentAt(st);
      if proctab[currpid].state == S.PrCurr {
        var first := Firstid(semtab.Length);
        assert first < proctab.Length ==> qkey[first] == Keys()[first];
        if proctab[currpid].prio > qkey[first] {
          return;
        }
        Requeue();
      } else {
        T.SwitchOk(st);
      }
      Switch();
    }

    /** The current process goes back to the ready list. */
    method Requeue()
      requires Whole() && st.procs[st.curr].state == S.PrCurr && st.procs[st.curr].prio > S.MINKEY
      modifies this, proctab, qkey, links
      ensures Whole() && st == S.MadeReady(old(st), old(st).curr) && ndefers == old(ndefers) && attempt == old(attempt)
      ensures st.q[S.ReadyQ(st)] != []
    {
      proctab[currpid] := proctab[currpid].(state := S.PrReady);
      Insert(currpid, semtab.Length, proctab[currpid].prio);
      st := S.MadeReady(st, currpid);
      assert proctab[..] == st.procs;
    }

    /** ready, for a process that is already off its queue. */
    method Ready(pid: int)
      requires Out(pid) && proctab[pid].prio > S.MINKEY && 0 <= ndefers && (ndefers == 0 ==> S.Base(S.MadeReady(st, pid)))
      modifies this, proctab, qkey, links
      ensures Whole() && ndefers == old(ndefers)
      ensures st == if ndefers > 0 then S.MadeReady(old(st), pid) else S.Resched(S.MadeReady(old(st), pid))
      ensures attempt == (old(attempt) || ndefers > 0)
    {
      proctab[pid] := proctab[pid].(state := S.PrReady);
      Insert(pid, semtab.Length, proctab[pid].prio);
      st := S.MadeReady(st, pid);
      assert proctab[..] == st.procs;
      Resched();
    }

    /** wait. */
    method Wait(s: int) returns (r: S.Ret)
      requires Valid() && st.curr != S.NULLPROC && st.pend[st.curr] == S.Nothing
      modifies this, proctab, semtab, qkey, links
      ensures Valid() && C.WaitStep(old(st), s) == (st, r)
    {
      if s < 0 || s >= semtab.Length || !semtab[s].used {
        return S.SysErr;
      }
      hide S.Resched, S.BaseCore, S.Top, S.QueueOf, TableCore;
      P.WaitOk(st, s);
      ghost var k := st;
      TakePlace(s);
      if semtab[s].count < 0 {
        WaitBase(k, s);
        JoinQueue(s);
        Resched();
        return S.Switched;
      }
      return S.Ok;
    }

    /** The count goes down by one. */
    method TakePlace(s: int)
      requires Whole() && 0 <= s < semtab.Length
      modifies this`st, semtab
      ensures Whole() && st == C.Count(old(st), s, old(st).sems[s].count - 1)
    {
      semtab[s] := semtab[s].(count := semtab[s].count - 1);
      st := C.Count(st, s, semtab[s].count);
      assert semtab[..] == st.sems;
    }

    /** The current process joins the queue of semaphore s. */
    method JoinQueue(s: int)
      requires Whole() && 0 <= s < semtab.Length && S.QueueOf(st, st.curr) == -1
      modifies this, proctab, links
      ensures Whole() && ndefers == old(ndefers) && attempt == old(attempt)
      ensures var k := old(st); st == k.(procs := k.procs[k.curr := k.procs[k.curr].(state := S.PrWait, sem := s)], q := k.q[s := k.q[s] + [k.curr]])
    {
      proctab[currpid] := proctab[currpid].(state := S.PrWait, sem := s);
      Enqueue(currpid, s);
      st := st.(procs := st.procs[currpid := proctab[currpid]], q := st.q[s := st.q[s] + [currpid]]);
      assert proctab[..] == st.procs;
    }

    /** signal. */
    method Signal(s: int) returns (r: S.Ret)
      requires Valid()
      modifies this, proctab, semtab, qkey, links
      ensures Valid() && C.SignalStep(old(st), s) == (st, r)
    {
      if s < 0 || s >= semtab.Length || !semtab[s].used {
        return S.SysErr;
      }
      P.SignalOk(st, s);
      P.SignalledOk(st, s);
      SignalOnce(s);
      return S.Ok;
    }

    /** The count goes up, and if somebody waits, the first becomes ready. */
    method SignalOnce(s: int)
      requires Whole() && 0 <= s < semtab.Length && st.sems[s].used && 0 <= ndefers && S.Base(st) && S.Base(C.Signalled(st, s))
      modifies this, proctab, semtab, qkey, links
      ensures Whole() && ndefers == old(ndefers)
      ensures st == if ndefers == 0 && old(st).sems[s].count < 0 then S.Resched(C.Signalled(old(st), s)) else C.Signalled(old(st), s)
      ensures attempt == (old(attempt) || (ndefers > 0 && old(st).sems[s].count < 0))
    {
      FirstWaiter(st, s);
      var c := semtab[s].count;
      semtab[s] := semtab[s].(count := c + 1);
      st := C.Count(st, s, c + 1);
      assert semtab[..] == st.sems;
      if c < 0 {
        var pid := Dequeue(s);
        assert Without(st.q[s], pid) == st.q[s][1..];
        Ready(pid);
      }
    }

    /** resched_cntl(DEFER_START). */
    method DeferStart()
      requires 0 <= ndefers
      modifies this`ndefers, this`attempt
      ensures ndefers == old(ndefers) + 1 && (old(ndefers) == 0 ==> !attempt) && (old(ndefers) != 0 ==> attempt == old(attempt))
    {
      if ndefers == 0 {
        attempt := false;
      }
      ndefers := ndefers + 1;
    }

    /** resched_cntl(DEFER_STOP): the rescheduling that was put off, if there was any, takes place. */
    method DeferStop()
      requires Whole() && 0 < ndefers && S.Base(st)
      modifies this, proctab, qkey, links
      ensures Whole() && ndefers == old(ndefers) - 1
      ensures st == if ndefers == 0 && old(attempt) then S.Resched(old(st)) else old(st)
    {
      ndefers := ndefers - 1;
      if ndefers == 0 && attempt {
        Resched();
      }
    }

    /** signaln. */
    method Signaln(s: int, count: int) returns (r: S.Ret)
      requires Valid()
      modifies this, proctab, semtab, qkey, links
      ensures Valid() && C.SignalnStep(old(st), s, count) == (st, r)
    {
      if s < 0 || s >= semtab.Length || count < 0 || !semtab[s].used {
        return S.SysErr;
      }
      ghost var k := st;
      P.SignalnOk(k, s, count);
      P.SignalledTimesOk(k, s, count);
      DeferStart();
      SignalTimes(s, count);
      DeferStop();
      return S.Ok;
    }

    /** The loop of signaln. */
    method SignalTimes(s: int, count: nat)
      requires Whole() && 0 <= s < semtab.Length && st.sems[s].used && S.Base(st) && ndefers == 1 && !attempt
      modifies this, proctab, semtab, qkey, links
      ensures Whole() && ndefers == 1 && st == C.SignalledTimes(old(st), s, count) && attempt == (old(st).sems[s].count < 0 && count > 0)
    {
      hide S.MadeReady, S.BaseCore, C.Signalled;
      ghost var k := st;
      var left: int := count;
      while left > 0
        invariant 0 <= left <= count && Whole() && ndefers == 1
        invariant st == C.SignalledTimes(k, s, count - left) && attempt == (k.sems[s].count < 0 && left < count)
      {
        P.SignalledTimesOk(k, s, count - left);
        P.SignalledOk(st, s);
        SignalOnce(s);
        left := left - 1;
      }
    }

    /** newsem: the next semaphore to try goes around the table. */
    method Newsem() returns (s: int)
      requires 0 <= nextsem < semtab.Length
      modifies this`nextsem, semtab
      ensures s == C.FindSem(old(semtab[..]), old(nextsem), semtab.Length)
      ensures s == -1 ==> nextsem == old(nextsem) && semtab[..] == old(semtab[..])
      ensures s != -1 ==> 0 <= s < semtab.Length && semtab[..] == old(semtab[..])[s := old(semtab[s]).(used := true)]
      ensures s != -1 ==> nextsem == if s + 1 >= semtab.Length then 0 else s + 1
    {
      ghost var sems := semtab[..];
      var i := 0;
      while i < semtab.Length
        invariant 0 <= i <= semtab.Length && semtab[..] == sems && 0 <= nextsem < semtab.Length
        invariant nextsem == if old(nextsem) + i >= semtab.Length then old(nextsem) + i - semtab.Length else old(nextsem) + i
        invariant C.FindSem(sems, old(nextsem), semtab.Length) == C.FindSem(sems, nextsem, semtab.Length - i)
      {
        s := nextsem;
        nextsem := nextsem + 1;
        if nextsem >= semtab.Length {
          nextsem := 0;
        }
        if !semtab[s].used {
          semtab[s] := semtab[s].(used := true);
          return;
        }
        i := i + 1;
      }
      return -1;
    }

    /** semcreate. */
    method Semcreate(count: int) returns (r: S.Ret)
      requires Valid()
      modifies this, semtab
      ensures Valid() && C.SemcreateStep(old(st), count) == (st, r)
    {
      if count < 0 {
        return S.SysErr;
      }
      P.SemcreateOk(st, count);
      var s := Newsem();
      if s == -1 {
        return S.SysErr;
      }
      semtab[s] := semtab[s].(count := count);
      st := C.SemcreateStep(st, count).0;
      assert semtab[..] == st.sems;
      return S.Value(s);
    }

    /** The first waiter, if there is one, becomes ready; rescheduling is put off. */
    method ReleaseFirst(s: int) returns (more: bool)
      requires Whole() && 0 <= s < semtab.Length && ndefers == 1 && Releasable(st, s)
      modifies this, proctab, qkey, links
      ensures Whole() && ndefers == 1 && more == (old(st).q[s] != []) && attempt == (old(attempt) || more)
      ensures st == if more then S.MadeReady(old(st), old(st).q[s][0]) else old(st)
    {
      var pid := Getfirst(s);
      if pid == EMPTY {
        return false;
      }
      assert Without(st.q[s], pid) == st.q[s][1..];
      Ready(pid);
      return true;
    }

    /** semdelete. */
    method Semdelete(s: int) returns (r: S.Ret)
      requires Valid()
      modifies this, proctab, semtab, qkey, links
      ensures Valid() && C.SemdeleteStep(old(st), s) == (st, r)
    {
      hide S.Resched, S.BaseCore, S.Top, C.AllReady;
      if s < 0 || s >= semtab.Length || !semtab[s].used {
        return S.SysErr;
      }
      ghost var k := st;
      P.ClearBase(k, s, S.Sem(false, if k.sems[s].count < 0 then 1 else k.sems[s].count + 1));
      P.ClearOk(k, s, S.Sem(false, if k.sems[s].count < 0 then 1 else k.sems[s].count + 1));
      semtab[s] := semtab[s].(used := false);
      st := Marked(st, s, semtab[s]);
      assert semtab[..] == st.sems;
      DeferStart();
      CountUp(k, s);
      DeferStop();
      return S.Ok;
    }

    /** The count goes up by one; the result is what it was. */
    method CountOne(s: int) returns (c: int)
      requires Whole() && 0 <= s < semtab.Length
      modifies this`st, semtab
      ensures Whole() && c == old(st).sems[s].count && st == Marked(old(st), s, old(st).sems[s].(count := c + 1))
    {
      c := semtab[s].count;
      semtab[s] := semtab[s].(count := c + 1);
      st := Marked(st, s, semtab[s]);
      assert semtab[..] == st.sems;
    }

    /** The loop of semdelete: everybody is released while the count is below zero. */
    method CountUp(ghost k: S.Kernel, s: int)
      requires Whole() && 0 <= s < semtab.Length && ndefers == 1 && !attempt
      requires S.Base(k) && |k.sems| == semtab.Length && k.sems[s].used && st == Marked(k, s, S.Sem(false, k.sems[s].count))
      modifies this, proctab, semtab, qkey, links
      ensures Whole() && ndefers == 1 && attempt == (k.q[s] != [])
      ensures st == Marked(C.AllReady(k, s, |k.q[s]|), s, S.Sem(false, if k.sems[s].count < 0 then 1 else k.sems[s].count + 1))
    {
      hide S.MadeReady, S.BaseCore, S.QueueOf, S.Sized, TableCore;
      WaitersAre(k, s);
      ghost var n := 0;
      var c := CountOne(s);
      while c < 0
        invariant 0 <= n <= |k.q[s]| && Whole() && ndefers == 1 && attempt == (n > 0)
        invariant c == k.sems[s].count + n && st == Marked(C.AllReady(k, s, n), s, S.Sem(false, c + 1))
        decreases -c
      {
        ReleaseNext(k, s, n, S.Sem(false, c + 1));
        var _ := ReleaseFirst(s);
        n := n + 1;
        c := CountOne(s);
      }
    }

    /** semreset. */
    method Semreset(s: int, count: int) returns (r: S.Ret)
      requires Valid()
      modifies this, proctab, semtab, qkey, links
      ensures Valid() && C.SemresetStep(old(st), s, count) == (st, r)
    {
      hide S.Resched, S.BaseCore, S.Top, C.AllReady;
      if count < 0 || s < 0 || s >= semtab.Length || !semtab[s].used {
        return S.SysErr;
      }
      ghost var k := st;
      ResetParts(k, s, count);
      DeferStart();
      ReleaseAll(s);
      semtab[s] := semtab[s].(count := count);
      st := C.Count(st, s, count);
      assert semtab[..] == st.sems;
      DeferStop();
      return S.Ok;
    }

    /** The loop of semreset. */
    method ReleaseAll(s: int)
      requires Whole() && 0 <= s < semtab.Length && ndefers == 1 && !attempt && S.Base(st)
      modifies this, proctab, qkey, links
      ensures Whole() && ndefers == 1 && attempt == (old(st).q[s] != []) && st == C.AllReady(old(st), s, |old(st).q[s]|)
    {
      hide S.MadeReady, S.BaseCore, S.QueueOf;
      ghost var k, n: nat := st, 0;
      var more := true;
      while more
        invariant n <= |k.q[s]| && Whole() && ndefers == 1 && attempt == (n > 0)
        invariant st == C.AllReady(k, s, n) && (!more ==> n == |k.q[s]|)
        decreases |k.q[s]| - n, more
      {
        AllMarked(k, s, n, k.sems[s]);
        ReleaseNext(k, s, n, k.sems[s]);
        more := ReleaseFirst(s);
        if more {
          n := n + 1;
        }
      }
    }

    // ---- sleeping

    /** The current process joins the sleep queue. */
    method FallAsleep(d: int, state: S.PrState)
      requires Whole() && S.QueueOf(st, st.curr) == -1 && state in {S.PrSleep, S.PrRectim}
      modifies this, proctab, qkey, links
      ensures Whole() && st == C.Asleep(old(st), old(st).curr, d, state) && ndefers == old(ndefers)
    {
      AsleepIs(st, d, state);
      Insertd(currpid, semtab.Length + 1, d);
      proctab[currpid] := proctab[currpid].(state := state);
      st := C.Asleep(st, currpid, d, state);
      assert proctab[..] == st.procs;
      assert Keys() == st.key && lists == st.q;
    }

    /** sleepms. The delay is unsigned, and a key is signed. */
    method Sleepms(delay: int) returns (r: S.Ret)
      requires Valid() && 0 <= delay < 0x1_0000_0000 && st.pend[st.curr] == S.Nothing && (delay != 0 ==> st.curr != S.NULLPROC)
      modifies this, proctab, qkey, links
      ensures Valid() && C.SleepStep(old(st), delay) == (st, r)
    {
      P.SleepOk(st, delay);
      if delay == 0 {
        r := Yield();
        return S.Ok;
      }
      var key := S.Int32(delay);
      P.SleepBase(st, key);
      CurrentAt(st);
      FallAsleep(key, S.PrSleep);
      Resched();
      return S.Switched;
    }

    /** unsleep. */
    method Unsleep(pid: int) returns (r: S.Ret)
      requires Whole()
      modifies this`st, this`lists, this`place, qkey, links
      ensures r == if C.BadPid(old(st), pid) || old(st).procs[pid].state !in {S.PrSleep, S.PrRectim} then S.SysErr else S.Ok
      ensures r == S.SysErr ==> Whole() && st == old(st)
      ensures r == S.Ok ==> Out(pid) && st == C.Unslept(old(st), pid) && st.procs == old(st.procs)
    {
      hide Full, TableCore;
      if pid < 0 || pid >= proctab.Length || proctab[pid].state == S.PrFree {
        return S.SysErr;
      }
      if proctab[pid].state != S.PrSleep && proctab[pid].state != S.PrRectim {
        return S.SysErr;
      }
      GiveKey(pid);
      st := C.Unslept(st, pid);
      Getitem(pid);
      r := S.Ok;
    }

    /** The part of unsleep that hands the key on. */
    method GiveKey(pid: int)
      requires Tab() && 0 <= pid < proctab.Length && 0 <= place[pid] < |lists|
      modifies qkey
      ensures Tab() && Keys() == C.KeyGiven(lists[place[pid]], old(Keys()), pid)
    {
      ghost var j := OnList(pid);
      NextIs(proctab.Length, links[..], lists, place, pid, j);
      var next := links[pid].next;
      if next < proctab.Length {
        qkey[next] := S.Int32(qkey[next] + qkey[pid]);
      }
    }

    // ---- messages

    /** The current process takes its message. */
    method Take() returns (r: S.Ret)
      requires Whole()
      modifies this`st, proctab, pend
      ensures Whole() && C.Took(old(st)) == (st, r)
    {
      var msg := proctab[currpid].msg;
      proctab[currpid] := proctab[currpid].(hasmsg := false);
      pend[currpid] := S.Nothing;
      st := C.Took(st).0;
      assert proctab[..] == st.procs && pend[..] == st.pend;
      return S.Value(msg);
    }

    /** send. */
    method Send(pid: int, msg: int) returns (r: S.Ret)
      requires Valid()
      modifies this, proctab, qkey, links
      ensures Valid() && C.SendStep(old(st), pid, msg) == (st, r)
    {
      hide S.MadeReady, S.Resched, S.BaseCore, S.Top;
      if pid < 0 || pid >= proctab.Length {
        return S.SysErr;
      }
      if proctab[pid].state == S.PrFree || proctab[pid].hasmsg {
        return S.SysErr;
      }
      P.SendOk(st, pid, msg);
      P.SendBase(st, pid, msg);
      PrioAt(st, pid);
      proctab[pid] := proctab[pid].(msg := msg, hasmsg := true);
      st := C.Delivered(st, pid, msg);
      assert proctab[..] == st.procs;
      WakeReceiver(pid);
      return S.Ok;
    }

    /** The part of send that makes a waiting receiver ready. */
    method WakeReceiver(pid: int)
      requires Whole() && 0 <= pid < proctab.Length && ndefers == 0 && st.procs[pid].prio > S.MINKEY
      requires st.procs[pid].state == S.PrRecv ==> S.Base(S.MadeReady(st, pid))
      requires st.procs[pid].state == S.PrRectim ==> S.Base(S.MadeReady(C.Unslept(st, pid), pid))
      modifies this, proctab, qkey, links
      ensures Whole() && ndefers == 0
      ensures st == match old(st).procs[pid].state
                    case PrRecv => S.Resched(S.MadeReady(old(st), pid))
                    case PrRectim => S.Resched(S.MadeReady(C.Unslept(old(st), pid), pid))
                    case _ => old(st)
    {
      if proctab[pid].state == S.PrRecv {
        Ready(pid);
      } else if proctab[pid].state == S.PrRectim {
        var _ := Unsleep(pid);
        Ready(pid);
      }
    }

    /** receive, up to the point where it waits. */
    method Receive() returns (r: S.Ret)
      requires Valid() && st.pend[st.curr] == S.Nothing && st.curr != S.NULLPROC
      modifies this, proctab, qkey, links, pend
      ensures Valid() && C.ReceiveStep(old(st)) == (st, r)
    {
      P.ReceiveOk(st);
      if !proctab[currpid].hasmsg {
        P.ReceiveBase(st);
        CurrentAt(st);
        proctab[currpid] := proctab[currpid].(state := S.PrRecv);
        pend[currpid] := S.InReceive;
        st := S.SetState(st.(pend := st.pend[st.curr := S.InReceive]), st.curr, S.PrRecv);
        assert proctab[..] == st.procs && pend[..] == st.pend;
        Resched();
        return S.Switched;
      }
      r := Take();
    }

    /** recvtime, up to the point where it waits. */
    method Recvtime(maxwait: int) returns (r: S.Ret)
      requires Valid() && st.pend[st.curr] == S.Nothing && st.curr != S.NULLPROC
      modifies this, proctab, qkey, links, pend
      ensures Valid() && C.RecvtimeStep(old(st), maxwait) == (st, r)
    {
      if maxwait < 0 {
        return S.SysErr;
      }
      P.RecvtimeOk(st, maxwait);
      if !proctab[currpid].hasmsg {
        P.RecvtimeBase(st, maxwait);
        CurrentAt(st);
        pend[currpid] := S.InRecvtime;
        st := st.(pend := st.pend[st.curr := S.InRecvtime]);
        assert pend[..] == st.pend;
        FallAsleep(maxwait, S.PrRectim);
        Resched();
        return S.Switched;
      }
      r := Take();
    }

    /** recvclr. */
    method Recvclr() returns (r: S.Ret)
      requires Valid() && st.pend[st.curr] == S.Nothing
      modifies this`st, proctab, pend
      ensures Valid() && C.RecvclrStep(old(st)) == (st, r)
    {
      if proctab[currpid].hasmsg {
        P.TookOk(st);
        r := Take();
        return;
      }
      return S.Ok;
    }

    /** What the current process has still to do: the end of receive, of recvtime, or of the clock
        interrupt. */
    method Finish() returns (r: S.Ret)
      requires Valid() && st.pend[st.curr] != S.Nothing
      modifies this, proctab, qkey, links, pend
      ensures Valid() && C.FinishStep(old(st)) == (st, r)
    {
      P.FinishOk(st);
      if pend[currpid] == S.InReceive || (pend[currpid] == S.InRecvtime && proctab[currpid].hasmsg) {
        r := Take();
        return;
      }
      var what := pend[currpid];
      FinishBase(st);
      pend[currpid] := S.Nothing;
      st := st.(pend := st.pend[st.curr := S.Nothing]);
      assert pend[..] == st.pend;
      if what == S.InTick {
        Slice();
        return S.Ok;
      }
      return S.TimeOut;
    }

    // ---- processes

    /** suspend. */
    method Suspend(pid: int) returns (r: S.Ret)
      requires Valid()
      modifies this, proctab, qkey, links
      ensures Valid() && C.SuspendStep(old(st), pid) == (st, r)
    {
      if pid < 0 || pid >= proctab.Length || pid == S.NULLPROC {
        return S.SysErr;
      }
      if proctab[pid].state != S.PrCurr && proctab[pid].state != S.PrReady {
        return S.SysErr;
      }
      P.SuspendOk(st, pid);
      P.SuspendBase(st, pid);
      var prio := proctab[pid].prio;
      if proctab[pid].state == S.PrReady {
        Getitem(pid);
        Becomes(pid, S.PrSusp);
      } else {
        Becomes(pid, S.PrSusp);
        Resched();
      }
      return S.Value(prio);
    }

    /** A process that is off its queue takes a state that has none. */
    method Becomes(pid: int, state: S.PrState)
      requires Out(pid) && state in {S.PrSusp, S.PrFree}
      modifies this`st, proctab
      ensures Whole() && st == S.SetState(S.OffQueue(old(st), pid), pid, state)
    {
      proctab[pid] := proctab[pid].(state := state);
      st := S.SetState(S.OffQueue(st, pid), pid, state);
      assert proctab[..] == st.procs;
    }

    /** resume. */
    method Resume(pid: int) returns (r: S.Ret)
      requires Valid()
      modifies this, proctab, qkey, links
      ensures Valid() && C.ResumeStep(old(st), pid) == (st, r)
    {
      if pid < 0 || pid >= proctab.Length {
        return S.SysErr;
      }
      if proctab[pid].state != S.PrSusp {
        return S.SysErr;
      }
      P.ResumeOk(st, pid);
      P.ResumeBase(st, pid);
      var prio := proctab[pid].prio;
      Ready(pid);
      return S.Value(prio);
    }

    /** yield. */
    method Yield() returns (r: S.Ret)
      requires Valid()
      modifies this, proctab, qkey, links
      ensures Valid() && st == S.Resched(old(st)) && r == S.Ok
    {
      T.ReschedOk(st);
      Resched();
      return S.Ok;
    }

    /** kill, as far as the queues go. */
    method Kill(pid: int) returns (r: S.Ret)
      requires Valid()
      modifies this, proctab, semtab, qkey, links
      ensures Valid() && C.KillStep(old(st), pid) == (st, r)
    {
      if pid < 0 || pid >= proctab.Length || pid == S.NULLPROC || proctab[pid].state == S.PrFree {
        return S.SysErr;
      }
      P.KillOk(st, pid);
      StateAt(st, pid);
      var state := proctab[pid].state;
      if state == S.PrCurr {
        KillBase(st);
        Becomes(pid, S.PrFree);
        Resched();
        return S.Switched;
      }
      TakeOff(pid);
      Becomes(pid, S.PrFree);
      return S.Ok;
    }

    /** The part of kill that takes a process off its queue. */
    method TakeOff(pid: int)
      requires Whole() && 0 <= pid < proctab.Length && st.procs[pid].state !in {S.PrFree, S.PrCurr}
      requires -1 <= S.QueueOf(st, pid) < |st.q| && (st.procs[pid].state == S.PrWait ==> 0 <= st.procs[pid].sem < |st.sems|)
      modifies this`st, this`lists, this`place, semtab, qkey, links
      ensures Out(pid) && st == C.Loosened(old(st), pid) && st.procs == old(st).procs
    {
      var state := proctab[pid].state;
      if state == S.PrSleep || state == S.PrRectim {
        var _ := Unsleep(pid);
      } else {
        if state == S.PrWait {
          var s := proctab[pid].sem;
          semtab[s] := semtab[s].(count := semtab[s].count + 1);
          st := C.Count(st, s, semtab[s].count);
          assert semtab[..] == st.sems;
        }
        if state == S.PrWait || state == S.PrReady {
          Getitem(pid);
        }
      }
    }

    /** create, of the process that newpid found; its stack is left out. */
    method Create(pid: int, prio: int) returns (r: S.Ret)
      requires Valid() && 0 <= pid < proctab.Length && st.procs[pid].state == S.PrFree
      modifies this`st, proctab, pend
      ensures Valid() && C.CreateStep(old(st), pid, prio) == (st, r)
    {
      if prio < 1 {
        return S.SysErr;
      }
      P.CreateOk(st, pid, prio);
      proctab[pid] := S.Proc(S.PrSusp, prio, -1, false, proctab[pid].msg);
      pend[pid] := S.Nothing;
      st := C.CreateStep(st, pid, prio).0;
      assert proctab[..] == st.procs && pend[..] == st.pend;
      return S.Value(pid);
    }

    // ---- the clock

    /** wakeup. */
    method Wakeup()
      requires Whole() && S.Base(st) && ndefers == 0
      modifies this, proctab, qkey, links
      ensures Whole() && ndefers == 0
      ensures var n := C.Due(old(st).q[S.SleepQ(old(st))], old(st).key);
        st == if n > 0 then S.Resched(C.WokenTimes(old(st), n)) else old(st)
    {
      ghost var k := st;
      P.WokenTimesOk(k, C.Due(k.q[S.SleepQ(k)], k.key));
      DeferStart();
      WakeAll();
      DeferStop();
    }

    /** The first sleeper becomes ready; rescheduling is put off. */
    method WakeFirst()
      requires Whole() && ndefers == 1 && st.q[S.SleepQ(st)] != []
      requires var pid := st.q[S.SleepQ(st)][0]; 0 <= pid < proctab.Length && st.procs[pid].prio > S.MINKEY && S.QueueOf(st, pid) == S.SleepQ(st)
      modifies this, proctab, qkey, links
      ensures Whole() && ndefers == 1 && attempt && st == S.MadeReady(old(st), old(st).q[S.SleepQ(old(st))][0])
    {
      var pid := Dequeue(semtab.Length + 1);
      assert Without(st.q[S.SleepQ(st)], pid) == st.q[S.SleepQ(st)][1..];
      Ready(pid);
    }

    /** The loop of wakeup. */
    method WakeAll()
      requires Whole() && S.Base(st) && ndefers == 1 && !attempt
      modifies this, proctab, qkey, links
      ensures Whole() && ndefers == 1
      ensures var n := C.Due(old(st).q[S.SleepQ(old(st))], old(st).key);
        st == C.WokenTimes(old(st), n) && attempt == (n > 0)
    {
      hide S.MadeReady, S.BaseCore, S.QueueOf, S.Sized, C.Due, TableCore;
      ghost var k, l, n: nat := st, st.q[S.SleepQ(st)], 0;
      assert l[0..] == l;
      var first := Firstid(semtab.Length + 1);
      while first < proctab.Length && qkey[first] <= 0
        invariant n <= |l| && Whole() && ndefers == 1 && attempt == (n > 0)
        invariant st == C.WokenTimes(k, n) && C.Due(l, k.key) == n + C.Due(l[n..], k.key)
        invariant lists[semtab.Length + 1] == l[n..] && 0 <= first < qkey.Length
        invariant if n == |l| then first >= proctab.Length else first == l[n] && first < proctab.Length && qkey[first] == k.key[l[n]]
        decreases |l| - n
      {
        NextSleeper(k, n);
        DueNext(l, k.key, n);
        WakeFirst();
        n := n + 1;
        NextSleeper(k, n);
        first := Firstid(semtab.Length + 1);
      }
      DueNext(l, k.key, n);
    }

    /** The part of the clock handler that looks after the time slice. */
    method Slice()
      requires Valid()
      modifies this, proctab, qkey, links
      ensures Valid() && st == C.Sliced(old(st))
    {
      P.SlicedOk(st);
      P.PreemptBase(st, S.QUANTUM);
      preempt := preempt - 1;
      if preempt <= 0 {
        preempt := S.QUANTUM;
        st := st.(preempt := S.QUANTUM);
        Resched();
      } else {
        st := st.(preempt := preempt);
      }
    }

    /** The part of the clock handler that looks after the sleepers. */
    method CountDown()
      requires Valid()
      modifies this, proctab, qkey, links
      ensures Whole() && S.Inv(st) && ndefers == 0 && st == AfterCount(old(st))
    {
      hide S.Resched, S.BaseCore, S.Top, C.WokenTimes;
      CountParts(st);
      ghost var k := st;
      st := st.(now := st.now + 1);
      var first := Firstid(semtab.Length + 1);
      if first < proctab.Length {
        qkey[first] := S.Int32(qkey[first] - 1);
        st := K.Counted(k);
        assert Keys() == st.key;
        if qkey[first] <= 0 {
          Wakeup();
        }
      }
    }

    /** clkhandler. When wakeup switches to another process, the rest is left for later. */
    method Clkhandler() returns (r: S.Ret)
      requires Valid() && st.pend[st.curr] == S.Nothing
      modifies this, proctab, qkey, links, pend
      ensures Valid() && C.TickStep(old(st)) == (st, r)
    {
      var pid := currpid;
      P.TickOk(st);
      CountDown();
      if currpid != pid {
        pend[pid] := S.InTick;
        st := st.(pend := st.pend[pid := S.InTick]);
        assert pend[..] == st.pend;
        return S.Switched;
      }
      Slice();
      return S.Ok;
    }

    /** Any call, or a clock interrupt, as the step that it is. */
    method Do(e: C.Event) returns (r: S.Ret)
      requires Valid() && C.Enabled(st, e)
      modifies this, proctab, semtab, qkey, links, pend
      ensures Valid() && C.Step(old(st), e) == (st, r)
    {
      hide C.WaitStep, C.SignalStep, C.SignalnStep, C.SemcreateStep, C.SemdeleteStep, C.SemresetStep, C.SendStep, C.ReceiveStep, C.RecvtimeStep, C.RecvclrStep, C.SuspendStep, C.ResumeStep, C.SleepStep, C.KillStep, C.CreateStep, C.TickStep, C.FinishStep, S.Inv;
      match e
      case Wait(s) => r := Wait(s);
      case Signal(s) => r := Signal(s);
      case Signaln(s, count) => r := Signaln(s, count);
      case Semcreate(count) => r := Semcreate(count);
      case Semdelete(s) => r := Semdelete(s);
      case Semreset(s, count) => r := Semreset(s, count);
      case Send(pid, msg) => r := Send(pid, msg);
      case Receive => r := Receive();
      case Recvtime(maxwait) => r := Recvtime(maxwait);
      case Recvclr => r := Recvclr();
      case Suspend(pid) => r := Suspend(pid);
      case Resume(pid) => r := Resume(pid);
      case Yield => r := Yield();
      case Sleepms(delay) => r := Sleepms(delay);
      case Kill(pid) => r := Kill(pid);
      case Create(pid, prio) => r := Create(pid, prio);
      case Tick => r := Clkhandler();
      case Finish => r := Finish();
    }
  }

  /** newqueue refuses to put a queue at index q of a table with n entries. */
  predicate RefusesAt(q: int, n: int) { q > n }

  /** It refuses exactly when there is no room for a head and a tail, unless q is the end itself. */
  lemma RefusesWhenFull(q: int, n: int)
    requires (n - q) % 2 == 0
    ensures (RefusesAt(q, n) <==> n - q < 2) <==> q != n
  {
    assert n - q < 2 && q <= n ==> q == n;
  }

  /** Once sysinit and clkinit have made the queues that the table is for, one more is not refused, and
      has no room. */
  method QueueBeyondEnd(nproc: nat, nsem: nat) returns (t: ProcessTable, full: bool)
    requires nproc > 0 && nsem > 0
    ensures t.Valid() && !full && t.nextqid == t.links.Length
  {
    t := new ProcessTable(nproc, nsem);
    full := t.QueuesFull();
  }

  /** What a process that goes to wait leaves behind. */
  lemma WaitBase(k: S.Kernel, s: int)
    requires S.Inv(k) && k.curr != S.NULLPROC && k.pend[k.curr] == S.Nothing && 0 <= s < |k.sems| && k.sems[s].used && k.sems[s].count <= 0
    ensures var p := k.procs[k.curr].(state := S.PrWait, sem := s);
      S.Base(C.Count(k, s, k.sems[s].count - 1).(procs := k.procs[k.curr := p], q := k.q[s := k.q[s] + [k.curr]])) && S.QueueOf(k, k.curr) == -1
  {
    hide S.Top, S.Ordered;
    var c := k.curr;
    assert S.BaseSpelledOut(k);
    assert S.SemOk(k, s) && S.MailOk(k, c) && S.PrioOk(k, c);
    T.BaseTo(k, c, s);
    var k1 := C.Count(k, s, k.sems[s].count - 1);
    P.CountBut(k, c, s, k.sems[s].count - 1);
    var k2 := k1.(procs := k.procs[c := k.procs[c].(state := S.PrWait, sem := s)], q := k.q[s := k.q[s] + [c]]);
    assert S.InsertAt(k.q[s], |k.q[s]|, c) == k.q[s] + [c];
    P.Joined(k1, k2, c, s, s, |k.q[s]|);
    T.BaseFrom(k2, c, s);
  }

  /** Whoever is first at a semaphore can be made ready. */
  lemma FirstWaiter(k: S.Kernel, s: int)
    requires S.Base(k) && 0 <= s < |k.sems| && k.sems[s].used
    ensures k.sems[s].count < 0 <==> k.q[s] != []
    ensures k.q[s] != [] ==> 0 <= k.q[s][0] < |k.procs| && k.procs[k.q[s][0]].prio > S.MINKEY && S.QueueOf(k, k.q[s][0]) == s
  {
    assert S.BaseSpelledOut(k);
    assert S.SemOk(k, s) && S.QueueOk(k, s);
    if k.q[s] != [] {
      assert S.PrioOk(k, k.q[s][0]);
    }
  }

  /** The current process is on no queue, and its priority can be a key. */
  lemma CurrentAt(k: S.Kernel)
    requires S.Base(k)
    ensures 0 <= k.curr < |k.procs| && (k.procs[k.curr].state == S.PrCurr ==> k.procs[k.curr].prio > S.MINKEY && S.QueueOf(k, k.curr) == -1)
  {
    assert S.BaseSpelledOut(k);
    assert S.PrioOk(k, k.curr);
  }

  lemma AsleepIs(k: S.Kernel, d: int, state: S.PrState)
    requires S.Sized(k) && state in {S.PrSleep, S.PrRectim}
    ensures var l, (j, rest), k' := k.q[S.SleepQ(k)], C.DeltaPlace(k.q[S.SleepQ(k)], k.key, d), C.Asleep(k, k.curr, d, state);
      && k'.q == k.q[S.SleepQ(k) := S.InsertAt(l, j, k.curr)] && k'.key == C.KeyAfter(l, k.key, k.curr, j, rest)
      && k'.procs == k.procs[k.curr := k.procs[k.curr].(state := state)] && k'.curr == k.curr && k'.sems == k.sems
      && k'.pend == k.pend && k'.nextsem == k.nextsem && k'.preempt == k.preempt && S.Sized(k')
  {
  }

  lemma FullInner(n: nat, links: seq<Link>, lists: seq<seq<int>>, place: seq<int>, i: int, j: nat)
    requires Table(n, links, lists, place) && 0 <= i < |lists| && j < |lists[i]|
    ensures Full(n, lists, i)[j + 1] == lists[i][j] && 0 <= lists[i][j] < n && Full(n, lists, i)[j + 1] != TailOf(n, i)
  {
    assert TableSpelledOut(links);
    assert QueueLinked(n, links, lists, place, i);
  }

  lemma Apart(n: nat, links: seq<Link>, lists: seq<seq<int>>, place: seq<int>, i: int, j: nat, pid: int)
    requires Table(n, links, lists, place) && 0 <= i < |lists| && 0 <= pid < n && place[pid] == -1 && j <= |lists[i]|
    ensures Full(n, lists, i)[j] != pid && Full(n, lists, i)[j + 1] != pid && Full(n, lists, i)[j] != Full(n, lists, i)[j + 1]
  {
    assert TableSpelledOut(links);
    FullBelongs(n, links, lists, place, i);
    assert QueueLinked(n, links, lists, place, i);
    var c := Full(n, lists, i);
    assert c[j] in c && c[j + 1] in c;
  }

  /** A semaphore's entry replaced. */
  function Marked(k: S.Kernel, s: int, m: S.Sem): S.Kernel
    requires 0 <= s < |k.sems|
  {
    k.(sems := k.sems[s := m])
  }

  /** The first waiter of a semaphore can be made ready. */
  ghost predicate Releasable(k: S.Kernel, s: int)
    requires S.Sized(k) && 0 <= s < |k.sems|
  {
    k.q[s] != [] ==> 0 <= k.q[s][0] < |k.procs| && k.procs[k.q[s][0]].prio > S.MINKEY && S.QueueOf(k, k.q[s][0]) == s
  }

  /** Who is made ready does not depend on what the semaphore's entry says. */
  lemma {:induction false} AllMarked(k: S.Kernel, s: int, n: nat, m: S.Sem)
    requires S.Sized(k) && 0 <= s < |k.sems|
    ensures C.AllReady(Marked(k, s, m), s, n) == Marked(C.AllReady(k, s, n), s, m)
    ensures C.AllReady(k, s, n).sems == k.sems && Marked(k, s, k.sems[s]) == k
  {
    hide S.MadeReady;
    if n > 0 {
      AllMarked(k, s, n - 1, m);
      var k1 := C.AllReady(k, s, n - 1);
      if k1.q[s] != [] && 0 <= k1.q[s][0] < |k1.procs| {
        ReadyMarked(k1, s, m, k1.q[s][0]);
      }
    }
  }

  lemma ReadyMarked(k: S.Kernel, s: int, m: S.Sem, pid: int)
    requires S.Sized(k) && 0 <= s < |k.sems| && 0 <= pid < |k.procs|
    ensures S.MadeReady(Marked(k, s, m), pid) == Marked(S.MadeReady(k, pid), s, m) && S.MadeReady(k, pid).sems == k.sems
  {
    assert S.QueueOf(Marked(k, s, m), pid) == S.QueueOf(k, pid);
    assert S.OffQueue(Marked(k, s, m), pid) == Marked(S.OffQueue(k, pid), s, m);
  }

  /** After n releases the next waiter can be released, and that is one release more. */
  lemma ReleaseNext(k: S.Kernel, s: int, n: nat, m: S.Sem)
    requires S.Base(k) && 0 <= s < |k.sems| && n <= |k.q[s]|
    ensures var k1 := Marked(C.AllReady(k, s, n), s, m);
      && S.Sized(k1) && Releasable(k1, s) && k1.q[s] == k.q[s][n..]
      && (n < |k.q[s]| ==> S.MadeReady(k1, k1.q[s][0]) == Marked(C.AllReady(k, s, n + 1), s, m))
  {
    P.AllReadyOk(k, s, n);
    var k0 := C.AllReady(k, s, n);
    assert S.QueueOk(k0, s);
    if k0.q[s] != [] {
      assert S.PrioOk(k0, k0.q[s][0]);
    }
  }

  lemma ResetParts(k: S.Kernel, s: int, count: int)
    requires S.Inv(k) && 0 <= s < |k.sems| && k.sems[s].used && count >= 0
    ensures var k1 := C.AllReady(k, s, |k.q[s]|); k1.sems == k.sems && S.Base(C.Count(k1, s, count))
    ensures S.Inv(C.SemresetStep(k, s, count).0)
  {
    AllMarked(k, s, |k.q[s]|, k.sems[s]);
    P.ClearBase(k, s, S.Sem(true, count));
    P.ClearOk(k, s, S.Sem(true, count));
  }

  lemma WaitersAre(k: S.Kernel, s: int)
    requires S.Base(k) && 0 <= s < |k.sems| && k.sems[s].used
    ensures |k.q[s]| == if k.sems[s].count < 0 then -k.sems[s].count else 0
  {
    assert S.BaseSpelledOut(k);
    assert S.SemOk(k, s);
  }

  lemma PrioAt(k: S.Kernel, pid: int)
    requires S.Base(k) && 0 <= pid < |k.procs| && k.procs[pid].state != S.PrFree
    ensures k.procs[pid].prio > S.MINKEY
  {
    assert S.BaseSpelledOut(k);
    assert S.PrioOk(k, pid);
  }

  /** Who follows a process on its queue. */
  lemma NextIs(n: nat, links: seq<Link>, lists: seq<seq<int>>, place: seq<int>, pid: int, j: nat)
    requires Table(n, links, lists, place) && 0 <= pid < n && 0 <= place[pid] < |lists| && j < |lists[place[pid]]| && lists[place[pid]][j] == pid
    ensures var l := lists[place[pid]];
      && C.PlaceOf(l, pid) == j && |l| > 0
      && if j + 1 < |l| then 0 <= l[j + 1] < n && links[pid].next == l[j + 1] && l[j + 1] != pid else links[pid].next >= n
  {
    assert TableSpelledOut(links);
    var l := lists[place[pid]];
    Neighbours(n, links, lists, place, pid, j);
    assert QueueLinked(n, links, lists, place, place[pid]);
    assert C.PlaceOf(l, pid) == j;
    assert Full(n, lists, place[pid])[j + 2] == if j + 1 < |l| then l[j + 1] else TailOf(n, place[pid]);
  }

  lemma FinishBase(k: S.Kernel)
    requires S.Inv(k) && k.pend[k.curr] in {S.InRecvtime, S.InTick}
    ensures S.Inv(k.(pend := k.pend[k.curr := S.Nothing]))
  {
    P.PendOk(k, k.curr, S.Nothing);
  }

  /** What a state says about the queue and the semaphore. */
  lemma StateAt(k: S.Kernel, pid: int)
    requires S.Base(k) && 0 <= pid < |k.procs|
    ensures -1 <= S.QueueOf(k, pid) < |k.q| && (k.procs[pid].state == S.PrWait ==> 0 <= k.procs[pid].sem < |k.sems|)
    ensures k.procs[pid].state == S.PrCurr ==> pid == k.curr
  {
    assert S.BaseSpelledOut(k);
    assert S.OnlyHere(k, pid) && S.PrioOk(k, pid);
  }

  lemma KillBase(k: S.Kernel)
    requires S.Inv(k) && k.curr != S.NULLPROC
    ensures S.Base(S.SetState(S.OffQueue(k, k.curr), k.curr, S.PrFree))
  {
    var c := k.curr;
    assert S.BaseSpelledOut(k);
    assert S.MailOk(k, c) && S.PrioOk(k, c);
    T.BaseTo(k, c, -1);
    var k1 := S.SetState(S.OffQueue(k, c), c, S.PrFree);
    P.Left(k, k1, c, -1);
    T.BaseFrom(k1, c, -1);
  }

  /** How Due goes on behind the first n. */
  lemma DueNext(l: seq<int>, key: seq<int>, n: nat)
    requires n <= |l|
    ensures C.Due(l[n..], key) == if n < |l| && 0 <= l[n] < |key| && key[l[n]] <= 0 then 1 + C.Due(l[n + 1..], key) else 0
  {
    if n < |l| {
      assert l[n..][0] == l[n] && l[n..][1..] == l[n + 1..];
    }
  }

  /** After n sleepers are awake, the next one is as it was. */
  lemma NextSleeper(k: S.Kernel, n: nat)
    requires S.Base(k) && n <= |k.q[S.SleepQ(k)]|
    ensures var l, k1 := k.q[S.SleepQ(k)], C.WokenTimes(k, n);
      && S.Sized(k1) && k1.q[S.SleepQ(k)] == l[n..]
      && (n < |l| ==> 0 <= l[n] < |k.procs| == |k1.procs| && k1.key[l[n]] == k.key[l[n]] && k1.procs[l[n]].prio > S.MINKEY
                      && S.QueueOf(k1, l[n]) == S.SleepQ(k) && S.MadeReady(k1, l[n]) == C.WokenTimes(k, n + 1))
  {
    var l, k1 := k.q[S.SleepQ(k)], C.WokenTimes(k, n);
    K.WokenTimesAre(k, n);
    assert S.BaseSpelledOut(k) && S.BaseSpelledOut(k1);
    assert S.QueueOk(k, S.SleepQ(k)) && S.QueueOk(k1, S.SleepQ(k));
    if n < |l| {
      assert k1.q[S.SleepQ(k)][0] == l[n];
      assert S.PrioOk(k1, l[n]);
      assert l[n] !in l[..n];
    }
  }

  /** After a tick, up to where the time slice is looked at. */
  function AfterCount(k: S.Kernel): S.Kernel
    requires S.Sized(k)
  {
    var k1 := C.Ticked(k);
    if |k1.q[S.SleepQ(k)]| < |k.q[S.SleepQ(k)]| then S.Resched(k1) else k1
  }

  lemma CountParts(k: S.Kernel)
    requires S.Inv(k)
    ensures S.Base(K.Counted(k)) && S.Inv(AfterCount(k))
    ensures var k2, l := K.Counted(k), k.q[S.SleepQ(k)];
      && (l == [] ==> AfterCount(k) == k2)
      && (l != [] ==> 0 <= l[0] < |k.procs| && (k2.key[l[0]] > 0 ==> AfterCount(k) == k2))
      && (l != [] && k2.key[l[0]] <= 0 ==> var n := C.Due(l, k2.key); n > 0 && AfterCount(k) == S.Resched(C.WokenTimes(k2, n)))
  {
    hide S.Resched, S.MadeReady, S.Top;
    var k2, l := K.Counted(k), k.q[S.SleepQ(k)];
    P.TickedOk(k);
    assert S.BaseSpelledOut(k);
    assert S.QueueOk(k, S.SleepQ(k));
    if l == [] {
      K.CountedSame(k);
      P.InvSame(k, k2);
    } else {
      K.CountedBase(k);
      P.WokenTimesOk(k2, C.Due(l, k2.key));
      if k2.key[l[0]] <= 0 {
        T.ReschedOk(C.Ticked(k));
      } else {
        P.InvSame(k, k2);
      }
    }
  }

  /** After sysinit. */
  function Boot(nproc: nat, nsem: nat): S.Kernel {
    S.Kernel(seq(nproc, i => if i == S.NULLPROC then S.Proc(S.PrCurr, 0, 0, false, 0) else S.Proc(S.PrFree, 0, 0, false, 0)),
             S.NULLPROC, seq(nsem + 2, i => []), seq(nproc, i => 0), seq(nsem, i => S.Sem(false, 0)), 0, S.QUANTUM,
             seq(nproc, i => S.Nothing), 0, seq(nproc, i => 0), seq(nproc, i => S.Log([], [])))
  }

  lemma BootIs(nproc: nat, nsem: nat, procs: seq<S.Proc>, sems: seq<S.Sem>, pend: seq<S.Pending>, keys: seq<int>)
    requires nproc > 0 && nsem > 0 && |procs| == |pend| == |keys| == nproc && |sems| == nsem
    requires forall i :: 0 <= i < nproc ==> procs[i] == (if i == S.NULLPROC then S.Proc(S.PrCurr, 0, 0, false, 0) else S.Proc(S.PrFree, 0, 0, false, 0))
    requires forall i :: 0 <= i < nproc ==> pend[i] == S.Nothing && keys[i] == 0
    requires forall i :: 0 <= i < nsem ==> sems[i] == S.Sem(false, 0)
    ensures var k := Boot(nproc, nsem);
      && k.procs == procs && k.sems == sems && k.pend == pend && k.key == keys && k.curr == S.NULLPROC && k.nextsem == 0 && k.preempt == S.QUANTUM
      && k.q == seq(nsem + 2, i => []) && S.Sized(k) && forall p :: 0 <= p < nproc ==> S.QueueOf(k, p) == -1
  {
  }

  lemma BootInv(nproc: nat, nsem: nat)
    requires nproc > 0 && nsem > 0
    ensures S.Inv(Boot(nproc, nsem)) && K.OnTime(Boot(nproc, nsem))
  {
    var k := Boot(nproc, nsem);
    forall i | 0 <= i < |k.q|
      ensures S.QueueOk(k, i)
    {
    }
    forall p | 0 <= p < |k.procs|
      ensures S.OnlyHere(k, p) && S.MailOk(k, p) && S.PrioOk(k, p)
    {
    }
    assert S.BaseCore(k);
  }

  lemma EmptyTable(n: nat, links: seq<Link>, lists: seq<seq<int>>, place: seq<int>)
    requires |place| == n && |links| == n + 2 * |lists|
    requires forall i :: 0 <= i < |lists| ==> lists[i] == [] && links[HeadOf(n, i)].next == TailOf(n, i) && links[TailOf(n, i)].prev == HeadOf(n, i)
    requires forall p :: 0 <= p < n ==> place[p] == -1
    ensures Table(n, links, lists, place)
  {
    forall i | 0 <= i < |lists|
      ensures QueueLinked(n, links, lists, place, i)
    {
      assert Joined(links, Full(n, lists, i), 0);
    }
    forall p | 0 <= p < n
      ensures Placed(lists, place, p)
    {
    }
    assert TableCore(n, links, lists, place);
  }
}
