/** Doubly linked lists inside a table: the queue table of the processes and the list of
    resident pages both keep a next and a previous index for every entry. */
module Links {
  import opened DistinctLists

  datatype Link = Link(next: int, prev: int)

  const NONE := -1

  /** Places j and j + 1 of the chain c are linked both ways. */
  ghost predicate Joined(t: seq<Link>, c: seq<int>, j: int)
    requires 0 <= j < |c| - 1
  {
    0 <= c[j] < |t| && 0 <= c[j + 1] < |t| && t[c[j]].next == c[j + 1] && t[c[j + 1]].prev == c[j]
  }

  /** c lists the entries from its first to its last in the order of the links. */
  ghost predicate Chained(t: seq<Link>, c: seq<int>) {
    && Distinct(c) && |c| >= 2
    && (forall j :: 0 <= j < |c| ==> 0 <= c[j] < |t|)
    && (forall j {:trigger Joined(t, c, j)} :: 0 <= j < |c| - 1 ==> Joined(t, c, j))
  }

  /** x between the entries p and n. */
  function Inserted(t: seq<Link>, x: int, p: int, n: int): seq<Link>
    requires 0 <= x < |t| && 0 <= p < |t| && 0 <= n < |t|
  {
    var t1 := t[x := Link(n, p)];
    var t2 := t1[p := t1[p].(next := x)];
    t2[n := t2[n].(prev := x)]
  }

  lemma InsertChained(t: seq<Link>, c: seq<int>, j: int, x: int)
    requires Chained(t, c) && 0 <= j < |c| - 1 && 0 <= x < |t| && x !in c
    ensures Chained(Inserted(t, x, c[j], c[j + 1]), c[..j + 1] + [x] + c[j + 1..])
  {
    var t', c' := Inserted(t, x, c[j], c[j + 1]), c[..j + 1] + [x] + c[j + 1..];
    forall i | 0 <= i < |c'| - 1
      ensures Joined(t', c', i)
    {
      if i < j {
        assert Joined(t, c, i);
      } else if i > j + 1 {
        assert Joined(t, c, i - 1);
      }
    }
  }

  /** x out of its list; its own links are left as they are. */
  function Removed(t: seq<Link>, x: int): seq<Link>
    requires 0 <= x < |t| && 0 <= t[x].prev < |t| && 0 <= t[x].next < |t|
  {
    var t1 := t[t[x].prev := t[t[x].prev].(next := t[x].next)];
    t1[t[x].next := t1[t[x].next].(prev := t[x].prev)]
  }

  lemma NeighboursAt(t: seq<Link>, c: seq<int>, j: int)
    requires Chained(t, c) && 0 < j < |c| - 1
    ensures 0 <= c[j] < |t| && t[c[j]] == Link(c[j + 1], c[j - 1]) && 0 <= c[j - 1] < |t| && 0 <= c[j + 1] < |t|
  {
    assert Joined(t, c, j - 1) && Joined(t, c, j);
  }

  lemma RemoveChained(t: seq<Link>, c: seq<int>, j: int)
    requires Chained(t, c) && 0 < j < |c| - 1
    ensures 0 <= c[j] < |t| && t[c[j]] == Link(c[j + 1], c[j - 1]) && 0 <= c[j - 1] < |t| && 0 <= c[j + 1] < |t|
    ensures Chained(Removed(t, c[j]), c[..j] + c[j + 1..])
  {
    NeighboursAt(t, c, j);
    var t', c' := Removed(t, c[j]), c[..j] + c[j + 1..];
    forall i | 0 <= i < |c'| - 1
      ensures Joined(t', c', i)
    {
      if i < j - 1 {
        assert Joined(t, c, i);
      } else if i >= j {
        assert Joined(t, c, i + 1);
      }
    }
  }

  /** A chain all of whose entries keep their links stays a chain. */
  lemma ChainFrame(t: seq<Link>, t': seq<Link>, c: seq<int>)
    requires Chained(t, c) && |t'| == |t| && forall j :: 0 <= j < |c| ==> 0 <= c[j] < |t| && t'[c[j]] == t[c[j]]
    ensures Chained(t', c)
  {
    forall j | 0 <= j < |c| - 1
      ensures Joined(t', c, j)
    {
      assert Joined(t, c, j);
    }
  }

  /** The links at the two ends of a chain. */
  lemma EndsAt(t: seq<Link>, c: seq<int>)
    requires Chained(t, c)
    ensures 0 <= c[0] < |t| && 0 <= c[|c| - 1] < |t| && t[c[0]].next == c[1] && t[c[|c| - 1]].prev == c[|c| - 2]
  {
    assert Joined(t, c, 0) && Joined(t, c, |c| - 2);
  }
}
