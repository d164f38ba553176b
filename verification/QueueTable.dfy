/** The queue table: an entry for every process, then a head and a tail for every queue. */
module QueueTable {
  import opened DistinctLists
  import opened Links
  import S = ProcessSpec

  function HeadOf(n: nat, i: int): int { n + 2 * i }

  function TailOf(n: nat, i: int): int { n + 2 * i + 1 }

  /** Queue i from its head to its tail. */
  function Full(n: nat, lists: seq<seq<int>>, i: int): seq<int>
    requires 0 <= i < |lists|
  {
    [HeadOf(n, i)] + lists[i] + [TailOf(n, i)]
  }

  /** Queue i is linked, and its processes are there and nowhere else. */
  ghost predicate QueueLinked(n: nat, links: seq<Link>, lists: seq<seq<int>>, place: seq<int>, i: int)
    requires 0 <= i < |lists|
  {
    && Chained(links, Full(n, lists, i)) && Distinct(lists[i])
    && forall a :: 0 <= a < |lists[i]| ==> 0 <= lists[i][a] < n && lists[i][a] < |place| && place[lists[i][a]] == i
  }

  ghost predicate Placed(lists: seq<seq<int>>, place: seq<int>, p: int)
    requires 0 <= p < |place|
  {
    -1 <= place[p] < |lists| && (place[p] >= 0 ==> p in lists[place[p]])
  }

  ghost predicate TableCore(n: nat, links: seq<Link>, lists: seq<seq<int>>, place: seq<int>) {
    && |place| == n && |links| == n + 2 * |lists|
    && (forall i {:trigger lists[i]} :: 0 <= i < |lists| ==> QueueLinked(n, links, lists, place, i))
    && (forall p {:trigger place[p]} :: 0 <= p < n ==> Placed(lists, place, p))
  }

  /** Marks the links for which a proof needs Table spelled out. */
  ghost predicate TableSpelledOut(links: seq<Link>) { true }

  /** `place` says on which queue every process is. */
  ghost predicate Table(n: nat, links: seq<Link>, lists: seq<seq<int>>, place: seq<int>) {
    && |place| == n && |links| == n + 2 * |lists|
    && forall x {:trigger TableSpelledOut(x)} :: x == links ==> TableCore(n, x, lists, place)
  }

  /** Entry x is an end of queue i, or a process on it. */
  ghost predicate Belongs(n: nat, place: seq<int>, i: int, x: int) {
    x == HeadOf(n, i) || x == TailOf(n, i) || (0 <= x < n && x < |place| && place[x] == i)
  }

  lemma FullBelongs(n: nat, links: seq<Link>, lists: seq<seq<int>>, place: seq<int>, i: int)
    requires Table(n, links, lists, place) && 0 <= i < |lists|
    ensures forall x :: x in Full(n, lists, i) ==> Belongs(n, place, i, x)
  {
    assert TableSpelledOut(links);
    assert QueueLinked(n, links, lists, place, i);
  }

  lemma OtherQueue(n: nat, links: seq<Link>, links': seq<Link>, lists: seq<seq<int>>, lists': seq<seq<int>>, place: seq<int>, place': seq<int>, i: int, r: int, pid: int)
    requires Table(n, links, lists, place) && 0 <= i < |lists| == |lists'| && 0 <= r < |lists| && r != i && 0 <= pid < n
    requires lists'[r] == lists[r] && |place'| == n && |links'| == |links| && pid !in lists[r]
    requires forall p :: 0 <= p < n && p != pid ==> place'[p] == place[p]
    requires forall x :: 0 <= x < |links| && x != pid && x !in Full(n, lists, i) ==> links'[x] == links[x]
    ensures QueueLinked(n, links', lists', place', r)
  {
    assert TableSpelledOut(links);
    assert QueueLinked(n, links, lists, place, r);
    var c, d := Full(n, lists, r), Full(n, lists, i);
    FullBelongs(n, links, lists, place, i);
    FullBelongs(n, links, lists, place, r);
    forall a | 0 <= a < |c|
      ensures c[a] != pid && c[a] !in d
    {
      assert c[a] in c;
      if 0 < a < |c| - 1 {
        assert c[a] == lists[r][a - 1];
        assert c[a] in lists[r];
      }
    }
    ChainFrame(links, links', c);
    forall a | 0 <= a < |lists[r]|
      ensures lists[r][a] != pid
    {
      assert lists[r][a] in lists[r];
    }
  }

  /** Process pid, which was on no queue, at place j of queue i. */
  lemma Inserts(n: nat, links: seq<Link>, lists: seq<seq<int>>, place: seq<int>, i: int, j: nat, pid: int)
    requires Table(n, links, lists, place) && 0 <= i < |lists| && 0 <= pid < n && place[pid] == -1 && j <= |lists[i]|
    ensures var c := Full(n, lists, i); 0 <= c[j] < |links| && 0 <= c[j + 1] < |links|
    ensures var c := Full(n, lists, i);
      Table(n, Inserted(links, pid, c[j], c[j + 1]), lists[i := S.InsertAt(lists[i], j, pid)], place[pid := i])
  {
    assert TableSpelledOut(links);
    var c, links' := Full(n, lists, i), Inserted(links, pid, Full(n, lists, i)[j], Full(n, lists, i)[j + 1]);
    var lists', place' := lists[i := S.InsertAt(lists[i], j, pid)], place[pid := i];
    assert QueueLinked(n, links, lists, place, i);
    forall r | 0 <= r < |lists|
      ensures pid !in lists[r]
    {
      assert QueueLinked(n, links, lists, place, r);
    }
    assert pid !in c;
    InsertChained(links, c, j, pid);
    assert c[..j + 1] + [pid] + c[j + 1..] == Full(n, lists', i);
    S.InsertAtIs(lists[i], j, pid);
    forall a | 0 <= a < |lists'[i]|
      ensures 0 <= lists'[i][a] < n && place'[lists'[i][a]] == i
    {
      assert lists'[i][a] in lists'[i];
    }
    forall r | 0 <= r < |lists'|
      ensures QueueLinked(n, links', lists', place', r)
    {
      if r != i {
        OtherQueue(n, links, links', lists, lists', place, place', i, r, pid);
      }
    }
    forall p | 0 <= p < n
      ensures Placed(lists', place', p)
    {
      assert Placed(lists, place, p);
    }
    assert TableCore(n, links', lists', place');
  }

  /** The neighbours of a process on a queue. */
  lemma Neighbours(n: nat, links: seq<Link>, lists: seq<seq<int>>, place: seq<int>, pid: int, j: nat)
    requires Table(n, links, lists, place) && 0 <= pid < n && 0 <= place[pid] < |lists| && j < |lists[place[pid]]| && lists[place[pid]][j] == pid
    ensures 0 <= links[pid].prev < |links| && 0 <= links[pid].next < |links| && links[pid].prev != pid && links[pid].next != pid
    ensures var c := Full(n, lists, place[pid]); c[j + 1] == pid && links[pid] == Link(c[j + 2], c[j])
  {
    assert TableSpelledOut(links);
    var c := Full(n, lists, place[pid]);
    assert QueueLinked(n, links, lists, place, place[pid]);
    assert c[j + 1] == pid;
    assert c[j] != c[j + 1] && c[j + 2] != c[j + 1];
    NeighboursAt(links, c, j + 1);
  }

  lemma WithoutMembers(l: seq<int>, x: int)
    requires Distinct(l)
    ensures Distinct(Without(l, x)) && forall a :: 0 <= a < |Without(l, x)| ==> Without(l, x)[a] in l && Without(l, x)[a] != x
  {
    WithoutIs(l, x);
    var w := Without(l, x);
    forall a | 0 <= a < |w|
      ensures w[a] in l && w[a] != x
    {
      assert w[a] in w;
    }
  }

  lemma CutOut(h: int, l: seq<int>, t: int, j: nat)
    requires j < |l|
    ensures var c := [h] + l + [t]; c[..j + 1] + c[j + 2..] == [h] + (l[..j] + l[j + 1..]) + [t]
  {
  }

  /** The queue that a process leaves. */
  lemma RemovesOwn(n: nat, links: seq<Link>, lists: seq<seq<int>>, place: seq<int>, pid: int, j: nat)
    requires Table(n, links, lists, place) && 0 <= pid < n && 0 <= place[pid] < |lists| && j < |lists[place[pid]]| && lists[place[pid]][j] == pid
    requires 0 <= links[pid].prev < |links| && 0 <= links[pid].next < |links|
    ensures QueueLinked(n, Removed(links, pid), lists[place[pid] := Without(lists[place[pid]], pid)], place[pid := -1], place[pid])
  {
    assert TableSpelledOut(links);
    var i := place[pid];
    var c, l' := Full(n, lists, i), Without(lists[i], pid);
    assert QueueLinked(n, links, lists, place, i);
    assert Chained(Removed(links, pid), Full(n, lists[i := l'], i)) by {
      assert c[j + 1] == pid;
      RemoveChained(links, c, j + 1);
      WithoutAt(lists[i], j);
      CutOut(HeadOf(n, i), lists[i], TailOf(n, i), j);
    }
    WithoutMembers(lists[i], pid);
    assert forall a :: 0 <= a < |l'| ==> l'[a] in lists[i];
  }

  /** Process pid off its queue. */
  lemma Removes(n: nat, links: seq<Link>, lists: seq<seq<int>>, place: seq<int>, pid: int, j: nat)
    requires Table(n, links, lists, place) && 0 <= pid < n && 0 <= place[pid] < |lists| && j < |lists[place[pid]]| && lists[place[pid]][j] == pid
    ensures 0 <= links[pid].prev < |links| && 0 <= links[pid].next < |links|
    ensures Table(n, Removed(links, pid), lists[place[pid] := Without(lists[place[pid]], pid)], place[pid := -1])
  {
    assert TableSpelledOut(links);
    Neighbours(n, links, lists, place, pid, j);
    RemovesOwn(n, links, lists, place, pid, j);
    var i, links' := place[pid], Removed(links, pid);
    var lists', place' := lists[i := Without(lists[i], pid)], place[pid := -1];
    var c := Full(n, lists, i);
    assert c[j] in c && c[j + 2] in c;
    forall r | 0 <= r < |lists'|
      ensures QueueLinked(n, links', lists', place', r)
    {
      if r != i {
        NotThere(n, links, lists, place, pid, r);
        OtherQueue(n, links, links', lists, lists', place, place', i, r, pid);
      }
    }
    WithoutIs(lists[i], pid) by {
      assert QueueLinked(n, links, lists, place, i);
    }
    forall p | 0 <= p < n
      ensures Placed(lists', place', p)
    {
      assert Placed(lists, place, p);
    }
    assert TableCore(n, links', lists', place');
  }

  lemma NotThere(n: nat, links: seq<Link>, lists: seq<seq<int>>, place: seq<int>, pid: int, r: int)
    requires Table(n, links, lists, place) && 0 <= pid < n && 0 <= r < |lists| && place[pid] != r
    ensures pid !in lists[r]
  {
    assert TableSpelledOut(links);
    assert QueueLinked(n, links, lists, place, r);
  }

  lemma {:induction false} WithoutAt(l: seq<int>, j: nat)
    requires j < |l| && Distinct(l)
    ensures Without(l, l[j]) == l[..j] + l[j + 1..]
  {
    var t := l[1..];
    if j == 0 {
      assert l[..0] + l[1..] == t;
    } else {
      assert t[j - 1] == l[j] && l[0] != l[j];
      WithoutAt(t, j - 1);
      assert [l[0]] + (t[..j - 1] + t[j..]) == l[..j] + l[j + 1..];
    }
  }

  /** Entries without links that are not in any list may change theirs. */
  lemma Unlists(n: nat, links: seq<Link>, links': seq<Link>, lists: seq<seq<int>>, place: seq<int>, pid: int)
    requires Table(n, links, lists, place) && 0 <= pid < n && place[pid] == -1 && |links'| == |links| && links' == links[pid := links'[pid]]
    ensures Table(n, links', lists, place)
  {
    assert TableSpelledOut(links);
    forall r | 0 <= r < |lists|
      ensures QueueLinked(n, links', lists, place, r)
    {
      NotThere(n, links, lists, place, pid, r);
      assert QueueLinked(n, links, lists, place, r);
      var c := Full(n, lists, r);
      forall a | 0 <= a < |c|
        ensures c[a] != pid
      {
        if 0 < a < |c| - 1 {
          assert c[a] == lists[r][a - 1];
          assert c[a] in lists[r];
        }
      }
      ChainFrame(links, links', c);
    }
    forall p | 0 <= p < n
      ensures Placed(lists, place, p)
    {
      assert place[p] == -1 || place[p] != -1;
    }
    assert TableCore(n, links', lists, place);
  }

  /** Where the links of a queue lead from place a. */
  lemma LinksAt(n: nat, links: seq<Link>, lists: seq<seq<int>>, place: seq<int>, i: int, a: int)
    requires Table(n, links, lists, place) && 0 <= i < |lists| && 0 <= a <= |lists[i]|
    ensures var c := Full(n, lists, i);
      0 <= c[a] < |links| && 0 <= c[a + 1] < |links| && links[c[a]].next == c[a + 1] && links[c[a + 1]].prev == c[a]
    ensures a < |lists[i]| ==> 0 <= lists[i][a] < n && Full(n, lists, i)[a + 1] == lists[i][a]
  {
    assert TableSpelledOut(links);
    assert QueueLinked(n, links, lists, place, i);
    assert Joined(links, Full(n, lists, i), a);
  }
}
