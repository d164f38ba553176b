/** Turns at a port: those who block there are released in the order in which they came. */
module PortTurns {
  import opened DistinctLists
  import opened PortSpec
  import opened PortSteps
  import opened PortRuns

  /** Who waits to send to port p, or to receive from it, the next to be released first. */
  function WaitQ(s: Sys, p: int, sending: bool): seq<int> {
    if !(0 <= p < |s.ports|) then [] else if sending then Queue(s.ports[p].ssem) else Queue(s.ports[p].rsem)
  }

  /** The process is blocked inside ptsend, or ptrecv, on port p. */
  predicate Waits(s: Sys, pid: int, p: int, sending: bool) {
    pid in s.acts && s.acts[pid].port == p && (if sending then s.acts[pid].Sender? && s.acts[pid].blocked else s.acts[pid].Receiver? && s.acts[pid].blocked)
  }

  /** The event is a call of ptsend, or ptrecv, by this process on port p. */
  predicate Calls(e: Event, pid: int, p: int, sending: bool) {
    if sending then e.Send? && e.pid == pid && e.port == p else e == Recv(pid, p)
  }

  lemma WaitersListed(s: Sys, p: int, sending: bool, total: nat)
    requires Inv(s, total)
    ensures Distinct(WaitQ(s, p, sending)) && forall pid :: Waits(s, pid, p, sending) <==> pid in WaitQ(s, p, sending)
  {
    if 0 <= p < |s.ports| {
      assert PortOk(s.ports[p], p, s.acts, 0, 0);
    }
  }

  /** What a step does to those who wait: the first n are released, or the caller comes last, or one
      is killed. */
  ghost predicate TurnStep(l: seq<int>, l': seq<int>, e: Event, p: int, sending: bool, n: nat) {
    || (n <= |l| && l' == l[n..])
    || (!e.Create? && !e.Resume? && Calls(e, e.pid, p, sending) && l' == l + [e.pid])
    || (e.Kill? && l' == Without(l, e.pid))
  }

  lemma StepTurns(s: Sys, e: Event, p: int, sending: bool, total: nat) returns (n: nat)
    requires Inv(s, total) && Enabled(s, e) && 0 <= p < |s.ports|
    ensures TurnStep(WaitQ(s, p, sending), WaitQ(Step(s, e).0, p, sending), e, p, sending, n)
  {
    hide Inv, PortOk, TurnStep, ResumeStep, SendCall, RecvCall, CreateCall, ClearCall, KillStep;
    n := 0;
    StepsOnePort(s, e);
    if PortOf(s, e) != p {
      Unchanged(WaitQ(s, p, sending), e, p, sending);
    } else {
      match e
      case Send(_, _, _) => n := CallTurns(s, e, p, sending);
      case Recv(_, _) => n := CallTurns(s, e, p, sending);
      case Create(_, _, _) => n := OtherTurns(s, e, p, sending, total);
      case Clear(_, _, _) => n := OtherTurns(s, e, p, sending, total);
      case Resume(pid) => n := ResumeTurns(s, pid, p, sending);
      case Kill(_) => n := OtherTurns(s, e, p, sending, total);
    }
  }

  lemma Unchanged(l: seq<int>, e: Event, p: int, sending: bool)
    ensures TurnStep(l, l, e, p, sending, 0)
  {
    assert l[0..] == l;
  }

  lemma CallTurns(s: Sys, e: Event, p: int, sending: bool) returns (n: nat)
    requires Enabled(s, e) && 0 <= p < |s.ports| && PortOf(s, e) == p && (e.Send? || e.Recv?)
    ensures TurnStep(WaitQ(s, p, sending), WaitQ(Step(s, e).0, p, sending), e, p, sending, n)
  {
    hide Wake;
    var l, l' := WaitQ(s, p, sending), WaitQ(Step(s, e).0, p, sending);
    n := if l' == l || l == [] then 0 else 1;
    assert l[0..] == l;
  }

  lemma ResumeTurns(s: Sys, pid: int, p: int, sending: bool) returns (n: nat)
    requires Enabled(s, Resume(pid)) && 0 <= p < |s.ports| && PortOf(s, Resume(pid)) == p
    ensures TurnStep(WaitQ(s, p, sending), WaitQ(Step(s, Resume(pid)).0, p, sending), Resume(pid), p, sending, n)
  {
    hide Wake;
    var l, l' := WaitQ(s, p, sending), WaitQ(Step(s, Resume(pid)).0, p, sending);
    n := if l' == l then 0 else if l' == [] then |l| else 1;
    assert l[0..] == l && l[|l|..] == [];
  }

  lemma OtherTurns(s: Sys, e: Event, p: int, sending: bool, total: nat) returns (n: nat)
    requires Inv(s, total) && Enabled(s, e) && 0 <= p < |s.ports| && PortOf(s, e) == p && (e.Create? || e.Clear? || e.Kill?)
    ensures TurnStep(WaitQ(s, p, sending), WaitQ(Step(s, e).0, p, sending), e, p, sending, n)
  {
    var l := WaitQ(s, p, sending);
    n := 0;
    assert l[0..] == l;
    if e.Create? {
      FindFreeIs(s.ports, s.nextid, |s.ports|);
      assert PortOk(s.ports[p], p, s.acts, 0, 0);
    }
  }

  /** a stands before b in the list. */
  ghost predicate Before(l: seq<int>, a: int, b: int) {
    exists i, j :: 0 <= i < j < |l| && l[i] == a && l[j] == b
  }

  /** Nobody overtakes: as long as a is there, b is there behind it. */
  lemma StaysBefore(l: seq<int>, l': seq<int>, e: Event, p: int, sending: bool, n: nat, a: int, b: int)
    requires TurnStep(l, l', e, p, sending, n) && Distinct(l) && Before(l, a, b) && e != Kill(a) && e != Kill(b)
    ensures a in l' ==> Before(l', a, b)
  {
    var i, j :| 0 <= i < j < |l| && l[i] == a && l[j] == b;
    if a in l' {
      if n <= |l| && l' == l[n..] {
        var c :| 0 <= c < |l'| && l'[c] == a;
        assert l[n + c] == a && c == i - n;
        assert l'[i - n] == a && l'[j - n] == b;
      } else if e.Kill? && l' == Without(l, e.pid) {
        WithoutBefore(l, e.pid, i, j);
      } else {
        assert l'[i] == a && l'[j] == b;
      }
    }
  }

  lemma {:induction false} WithoutBefore(l: seq<int>, x: int, i: int, j: int)
    requires 0 <= i < j < |l| && l[i] != x && l[j] != x
    ensures Before(Without(l, x), l[i], l[j])
  {
    var t := l[1..];
    if l[0] == x {
      assert t[i - 1] == l[i] && t[j - 1] == l[j];
      assert Without(l, x)[i - 1] == l[i] && Without(l, x)[j - 1] == l[j];
    } else if i == 0 {
      StaysIn(t, x, j - 1);
      var c :| 0 <= c < |Without(t, x)| && Without(t, x)[c] == l[j];
      assert Without(l, x)[0] == l[0] && Without(l, x)[c + 1] == l[j];
    } else {
      WithoutBefore(t, x, i - 1, j - 1);
      var c, d :| 0 <= c < d < |Without(t, x)| && Without(t, x)[c] == l[i] && Without(t, x)[d] == l[j];
      assert Without(l, x)[c + 1] == l[i] && Without(l, x)[d + 1] == l[j];
    }
  }

  lemma {:induction false} StaysIn(l: seq<int>, x: int, j: int)
    requires 0 <= j < |l| && l[j] != x
    ensures l[j] in Without(l, x)
  {
    if l[0] != x && j > 0 {
      StaysIn(l[1..], x, j - 1);
    } else if l[0] == x {
      assert l[1..][j - 1] == l[j];
    }
  }

  // ---- runs

  /** The run does not let the process go on: what it is inside is the same call throughout. */
  ghost predicate StaysInside(evs: seq<Event>, pid: int) { Resume(pid) !in evs && Kill(pid) !in evs }

  /** A process that has been released does not wait again inside the same call. */
  lemma {:induction false} StaysReleased(s: Sys, evs: seq<Event>, pid: int, p: int, sending: bool)
    requires Legal(s, evs) && StaysInside(evs, pid) && pid in s.acts && !Waits(s, pid, p, sending)
    ensures pid in Run(s, evs).acts && !Waits(Run(s, evs), pid, p, sending)
    decreases |evs|
  {
    hide Enabled, Step;
    if evs != [] {
      assert evs[0] in evs && forall e :: e in evs[1..] ==> e in evs;
      StepOtherActs(s, evs[0], pid);
      StaysReleased(Step(s, evs[0]).0, evs[1..], pid, p, sending);
    }
  }

  /** While a waits before b, b waits. */
  lemma {:induction false} RunTurns(s: Sys, evs: seq<Event>, p: int, sending: bool, a: int, b: int, total: nat)
    requires Inv(s, total) && Legal(s, evs) && 0 <= p < |s.ports| && Before(WaitQ(s, p, sending), a, b)
    requires StaysInside(evs, a) && Kill(b) !in evs
    ensures Waits(Run(s, evs), a, p, sending) ==> Waits(Run(s, evs), b, p, sending)
    decreases |evs|
  {
    hide Enabled, Step, Inv, Before, WaitQ, TurnStep;
    WaitersListed(s, p, sending, total);
    BeforeIn(WaitQ(s, p, sending), a, b);
    if evs != [] {
      var e, s1 := evs[0], Step(s, evs[0]).0;
      assert e in evs && forall x :: x in evs[1..] ==> x in evs;
      var n := StepTurns(s, e, p, sending, total);
      StaysBefore(WaitQ(s, p, sending), WaitQ(s1, p, sending), e, p, sending, n, a, b);
      StepKeeps(s, e, total);
      StepsOnePort(s, e);
      WaitersListed(s1, p, sending, total);
      if a in WaitQ(s1, p, sending) {
        RunTurns(s1, evs[1..], p, sending, a, b, total);
      } else {
        StepOtherActs(s, e, a);
        StaysReleased(s1, evs[1..], a, p, sending);
      }
    }
  }

  lemma BeforeIn(l: seq<int>, a: int, b: int)
    requires Before(l, a, b)
    ensures a in l && b in l
  {
  }

  /** Who blocks comes last. */
  lemma BlockedLast(s: Sys, e: Event, pid: int, p: int, sending: bool)
    requires Enabled(s, e) && Calls(e, pid, p, sending) && Step(s, e).1 == Blocked
    ensures 0 <= p < |s.ports| == |Step(s, e).0.ports| && WaitQ(Step(s, e).0, p, sending) == WaitQ(s, p, sending) + [pid]
    ensures Waits(Step(s, e).0, pid, p, sending)
  {
    hide Wake;
  }

  /** First come, first released, over every interleaving: if a blocks in ptsend on a port, and later
      b does, then b is not released while a is still blocked in that call, whatever else happens; it
      can leave before only by being killed. The same for ptrecv. */
  lemma InTurn(s: Sys, a: int, ea: Event, evs: seq<Event>, b: int, eb: Event, evs': seq<Event>, p: int, sending: bool, total: nat)
    requires Inv(s, total) && Enabled(s, ea) && Calls(ea, a, p, sending) && Step(s, ea).1 == Blocked
    requires Legal(Step(s, ea).0, evs) && Enabled(Run(Step(s, ea).0, evs), eb)
    requires Calls(eb, b, p, sending) && Step(Run(Step(s, ea).0, evs), eb).1 == Blocked && Legal(Step(Run(Step(s, ea).0, evs), eb).0, evs')
    requires StaysInside(evs + evs', a) && Kill(b) !in evs'
    ensures var s' := Run(Step(Run(Step(s, ea).0, evs), eb).0, evs');
      Waits(s', a, p, sending) ==> Waits(s', b, p, sending)
  {
    hide Enabled, Step, Inv, Before, WaitQ;
    var s1 := Step(s, ea).0;
    var s2 := Run(s1, evs);
    var s3 := Step(s2, eb).0;
    assert (forall e :: e in evs ==> e in evs + evs') && (forall e :: e in evs' ==> e in evs + evs');
    StepKeeps(s, ea, total);
    RunKeeps(s1, evs, total);
    StepKeeps(s2, eb, total);
    BlockedLast(s, ea, a, p, sending);
    BlockedLast(s2, eb, b, p, sending);
    RunInside(s1, evs, a);
    NewCaller(s2, eb, b, p, sending);
    WaitersListed(s2, p, sending, total);
    if a in WaitQ(s2, p, sending) {
      LastBehind(WaitQ(s2, p, sending), a, b);
      RunTurns(s3, evs', p, sending, a, b, total);
    } else {
      StepOtherActs(s2, eb, a);
      StaysReleased(s3, evs', a, p, sending);
    }
  }

  lemma LastBehind(l: seq<int>, a: int, b: int)
    requires a in l
    ensures Before(l + [b], a, b)
  {
    var i :| 0 <= i < |l| && l[i] == a;
    assert (l + [b])[i] == a && (l + [b])[|l|] == b;
  }

  /** Who calls is not inside a call already. */
  lemma NewCaller(s: Sys, e: Event, pid: int, p: int, sending: bool)
    requires Enabled(s, e) && Calls(e, pid, p, sending)
    ensures pid !in s.acts && forall q :: e != Resume(q) && e != Kill(q)
  {
  }

  lemma {:induction false} RunInside(s: Sys, evs: seq<Event>, pid: int)
    requires Legal(s, evs) && StaysInside(evs, pid) && pid in s.acts
    ensures pid in Run(s, evs).acts
    decreases |evs|
  {
    hide Enabled, Step;
    if evs != [] {
      assert evs[0] in evs && forall e :: e in evs[1..] ==> e in evs;
      StepOtherActs(s, evs[0], pid);
      RunInside(Step(s, evs[0]).0, evs[1..], pid);
    }
  }

  /** Whenever a message is taken from a port the sender that has waited longest is released, and
      nobody else; whenever one is put there, the receiver that has. */
  lemma OneReleased(s: Sys, e: Event, p: int, sending: bool, total: nat)
    requires Inv(s, total) && Enabled(s, e) && 0 <= p < |s.ports| && PortOf(s, e) == p
    requires if sending then Step(s, e).1.Message? else Step(s, e).1 == Ok && (e.Send? || (e.Resume? && s.acts[e.pid].Sender?))
    ensures var l := WaitQ(s, p, sending); WaitQ(Step(s, e).0, p, sending) == if l == [] then [] else l[1..]
  {
    hide Wake, SendersOk, ReceiversOk, ClearersOk, TokensOk;
    assert PortOk(s.ports[p], p, s.acts, 0, 0);
  }
}
