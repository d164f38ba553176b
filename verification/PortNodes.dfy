/** The message nodes of the ports: one pool, one free list, one list for every port. */
module PortNodes {
  import opened DistinctLists
  import opened BlockPool
  import opened PortSpec

  /** struct ptnode; -1 is the null pointer. */
  datatype Node = Node(msg: Msg, next: int)

  /** What node k of a port's list points to. */
  function After(l: seq<int>, k: nat): int { if k + 1 < |l| then l[k + 1] else -1 }

  ghost predicate FreeLinked(nodes: seq<Node>, free: seq<int>) {
    forall k {:trigger Link(free, k)} :: 0 <= k < |free| ==> 0 <= free[k] < |nodes| && nodes[free[k]].next == Link(free, k)
  }

  /** The nodes l are linked in order and hold the messages q. */
  ghost predicate Holds(nodes: seq<Node>, l: seq<int>, q: seq<Msg>) {
    && |l| == |q|
    && forall k {:trigger After(l, k)} :: 0 <= k < |l| ==> 0 <= l[k] < |nodes| && nodes[l[k]] == Node(q[k], After(l, k))
  }

  ghost predicate AllHold(nodes: seq<Node>, lists: seq<seq<int>>, queues: seq<seq<Msg>>) {
    |lists| == |queues| && forall p {:trigger queues[p]} :: 0 <= p < |queues| ==> Holds(nodes, lists[p], queues[p])
  }

  ghost predicate Linked(nodes: seq<Node>, pool: Pool, queues: seq<seq<Msg>>) {
    && PoolOk(pool, 0, |nodes|)
    && FreeLinked(nodes, pool.free)
    && AllHold(nodes, pool.lists, queues)
  }

  function Last(l: seq<int>): int { if l == [] then -1 else l[|l| - 1] }

  function First(l: seq<int>): int { if l == [] then -1 else l[0] }

  /** The nodes once the first free one has been linked at the tail of list l. */
  function Appended(nodes: seq<Node>, l: seq<int>, b: int, msg: Msg): seq<Node>
    requires 0 <= b < |nodes| && forall k :: 0 <= k < |l| ==> 0 <= l[k] < |nodes|
  {
    var n1 := nodes[b := Node(msg, -1)];
    if l == [] then n1 else n1[Last(l) := n1[Last(l)].(next := b)]
  }

  lemma AppendLinked(nodes: seq<Node>, pool: Pool, queues: seq<seq<Msg>>, p: nat, msg: Msg)
    requires Linked(nodes, pool, queues) && p < |queues| && pool.free != []
    ensures 0 <= Head(pool.free) < |nodes| && forall k :: 0 <= k < |pool.lists[p]| ==> 0 <= pool.lists[p][k] < |nodes|
    ensures Linked(Appended(nodes, pool.lists[p], Head(pool.free), msg), Take(pool, p), queues[p := queues[p] + [msg]])
  {
    var l, b := pool.lists[p], Head(pool.free);
    FileBlocks(pool, p, 0, |nodes|);
    HeadOk(pool, 0, |nodes|);
    var nodes', pool', queues' := Appended(nodes, l, b, msg), Take(pool, p), queues[p := queues[p] + [msg]];
    TakeKeeps(pool, p, 0, |nodes|);
    forall k | 0 <= k < |pool'.free|
      ensures 0 <= pool'.free[k] < |nodes'| && nodes'[pool'.free[k]].next == Link(pool'.free, k)
    {
      assert pool.own[pool.free[k]] == OnFree(k);
      assert nodes[pool.free[k]].next == Link(pool.free, k);
    }
    forall r | 0 <= r < |queues'|
      ensures Holds(nodes', pool'.lists[r], queues'[r])
    {
      assert Holds(nodes, pool.lists[r], queues[r]);
      FileBlocks(pool, r, 0, |nodes|);
      if r == p {
        AppendHolds(nodes, l, queues[p], b, msg);
      } else {
        HoldsFrame(nodes, nodes', pool.lists[r], queues[r]);
      }
    }
  }

  lemma HoldsFrame(nodes: seq<Node>, nodes': seq<Node>, l: seq<int>, q: seq<Msg>)
    requires Holds(nodes, l, q) && |nodes'| == |nodes|
    requires forall k :: 0 <= k < |l| ==> 0 <= l[k] < |nodes| && nodes'[l[k]] == nodes[l[k]]
    ensures Holds(nodes', l, q)
  {
    forall k | 0 <= k < |l|
      ensures nodes'[l[k]] == Node(q[k], After(l, k))
    {
      assert nodes[l[k]] == Node(q[k], After(l, k));
    }
  }

  lemma AppendHolds(nodes: seq<Node>, l: seq<int>, q: seq<Msg>, b: int, msg: Msg)
    requires Holds(nodes, l, q) && 0 <= b < |nodes| && b !in l && Distinct(l)
    requires forall k :: 0 <= k < |l| ==> 0 <= l[k] < |nodes|
    ensures Holds(Appended(nodes, l, b, msg), l + [b], q + [msg])
  {
    var l', nodes' := l + [b], Appended(nodes, l, b, msg);
    forall k | 0 <= k < |l'|
      ensures 0 <= l'[k] < |nodes'| && nodes'[l'[k]] == Node((q + [msg])[k], After(l', k))
    {
      if k < |l| {
        assert nodes[l[k]] == Node(q[k], After(l, k));
      }
    }
  }

  /** Only nodes of list p change, so the free list stays linked. */
  lemma FreeFrame(nodes: seq<Node>, pool: Pool, nodes': seq<Node>, p: nat)
    requires PoolOk(pool, 0, |nodes|) && FreeLinked(nodes, pool.free) && p < |pool.lists| && |nodes'| == |nodes|
    requires forall b :: 0 <= b < |nodes| && b !in pool.lists[p] ==> nodes'[b] == nodes[b]
    ensures FreeLinked(nodes', pool.free)
  {
    forall k | 0 <= k < |pool.free|
      ensures 0 <= pool.free[k] < |nodes'| && nodes'[pool.free[k]].next == Link(pool.free, k)
    {
      assert pool.own[pool.free[k]] == OnFree(k);
      assert nodes[pool.free[k]].next == Link(pool.free, k);
    }
  }

  lemma FreePush(nodes: seq<Node>, free: seq<int>, b: int)
    requires FreeLinked(nodes, free) && 0 <= b < |nodes| && nodes[b].next == Head(free)
    ensures FreeLinked(nodes, free + [b])
  {
    forall k | 0 <= k < |free| + 1
      ensures 0 <= (free + [b])[k] < |nodes| && nodes[(free + [b])[k]].next == Link(free + [b], k)
    {
      if k < |free| {
        var next := Link(free, k);
        assert nodes[free[k]].next == next;
      }
    }
  }

  /** The nodes once the first one of list l is back on the free list. */
  lemma PopLinked(nodes: seq<Node>, pool: Pool, queues: seq<seq<Msg>>, p: nat)
    requires Linked(nodes, pool, queues) && p < |queues| && queues[p] != []
    ensures pool.lists[p] != [] && 0 <= pool.lists[p][0] < |nodes| && nodes[pool.lists[p][0]] == Node(queues[p][0], First(pool.lists[p][1..]))
    ensures var b := pool.lists[p][0];
      Linked(nodes[b := nodes[b].(next := Head(pool.free))], GiveBack(pool, p), queues[p := queues[p][1..]])
  {
    var l := pool.lists[p];
    assert Holds(nodes, l, queues[p]);
    FileBlocks(pool, p, 0, |nodes|);
    assert nodes[l[0]] == Node(queues[p][0], After(l, 0));
    var b := l[0];
    var nodes', pool', queues' := nodes[b := nodes[b].(next := Head(pool.free))], GiveBack(pool, p), queues[p := queues[p][1..]];
    GiveBackKeeps(pool, p, 0, |nodes|);
    FreeFrame(nodes, pool, nodes', p);
    FreePush(nodes', pool.free, b);
    forall r | 0 <= r < |queues'|
      ensures Holds(nodes', pool'.lists[r], queues'[r])
    {
      assert Holds(nodes, pool.lists[r], queues[r]);
      FileBlocks(pool, r, 0, |nodes|);
      if r == p {
        TailHolds(nodes, l, queues[p], nodes');
      } else {
        HoldsFrame(nodes, nodes', pool.lists[r], queues[r]);
      }
    }
  }

  lemma TailHolds(nodes: seq<Node>, l: seq<int>, q: seq<Msg>, nodes': seq<Node>)
    requires Holds(nodes, l, q) && l != [] && Distinct(l) && |nodes'| == |nodes|
    requires forall k :: 0 <= k < |l| ==> 0 <= l[k] < |nodes|
    requires forall k :: 1 <= k < |l| ==> nodes'[l[k]] == nodes[l[k]]
    ensures Holds(nodes', l[1..], q[1..])
  {
    var t := l[1..];
    forall k | 0 <= k < |t|
      ensures nodes'[t[k]] == Node(q[1..][k], After(t, k))
    {
      assert nodes[l[k + 1]] == Node(q[k + 1], After(l, k + 1));
    }
  }

  /** The nodes once the whole of list p has been linked in front of the free list. */
  lemma SpliceLinked(nodes: seq<Node>, pool: Pool, queues: seq<seq<Msg>>, p: nat) returns (pool': Pool)
    requires Linked(nodes, pool, queues) && p < |queues| && queues[p] != []
    ensures pool.lists[p] != [] && 0 <= Last(pool.lists[p]) < |nodes| && Released(pool, p, true, pool')
    ensures var z := Last(pool.lists[p]); Linked(nodes[z := nodes[z].(next := Head(pool.free))], pool', queues[p := []])
  {
    var l := pool.lists[p];
    assert Holds(nodes, l, queues[p]);
    FileBlocks(pool, p, 0, |nodes|);
    pool' := Release(pool, p, true, 0, |nodes|);
    var z := Last(l);
    var nodes', queues' := nodes[z := nodes[z].(next := Head(pool.free))], queues[p := []];
    SpliceFree(nodes, pool, queues, p);
    forall r | 0 <= r < |queues'|
      ensures Holds(nodes', pool'.lists[r], queues'[r])
    {
      assert Holds(nodes, pool.lists[r], queues[r]);
      FileBlocks(pool, r, 0, |nodes|);
      if r != p {
        HoldsFrame(nodes, nodes', pool.lists[r], queues[r]);
      }
    }
  }

  lemma SpliceFree(nodes: seq<Node>, pool: Pool, queues: seq<seq<Msg>>, p: nat)
    requires Linked(nodes, pool, queues) && p < |queues| && queues[p] != []
    ensures pool.lists[p] != [] && 0 <= Last(pool.lists[p]) < |nodes|
    ensures var z := Last(pool.lists[p]); FreeLinked(nodes[z := nodes[z].(next := Head(pool.free))], FreedList(pool, p, true))
  {
    var l := pool.lists[p];
    assert Holds(nodes, l, queues[p]);
    FileBlocks(pool, p, 0, |nodes|);
    var nodes' := nodes[Last(l) := nodes[Last(l)].(next := Head(pool.free))];
    FreeFrame(nodes, pool, nodes', p);
    forall j | 0 <= j < |l|
      ensures 0 <= l[j] < |nodes'| && nodes'[l[j]].next == if j < |l| - 1 then First(l[j + 1..]) else Head(pool.free)
    {
      assert nodes[l[j]] == Node(queues[p][j], After(l, j));
    }
    ChainPush(nodes', pool.free, l);
    assert FreedList(pool, p, true) == pool.free + Reverse(l);
  }

  /** A chain that ends at the head of the free list extends it. */
  lemma {:induction false} ChainPush(nodes: seq<Node>, free: seq<int>, l: seq<int>)
    requires FreeLinked(nodes, free)
    requires forall j {:trigger l[j]} :: 0 <= j < |l| ==> 0 <= l[j] < |nodes| && nodes[l[j]].next == (if j < |l| - 1 then First(l[j + 1..]) else Head(free))
    ensures FreeLinked(nodes, free + Reverse(l))
  {
    if l == [] {
      assert free + Reverse(l) == free;
    } else {
      var t := l[1..];
      forall j | 0 <= j < |t|
        ensures 0 <= t[j] < |nodes| && nodes[t[j]].next == (if j < |t| - 1 then First(t[j + 1..]) else Head(free))
      {
        assert t[j] == l[j + 1] && t[j + 1..] == l[j + 2..];
      }
      ChainPush(nodes, free, t);
      assert l[1..] == t;
      if t != [] {
        assert Reverse(t)[|t| - 1] == t[0];
      }
      FreePush(nodes, free + Reverse(t), l[0]);
      assert free + Reverse(l) == free + Reverse(t) + [l[0]];
    }
  }
}
