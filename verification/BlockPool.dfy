/** Ownership of numbered disk blocks: every block of a range is either on the free list,
    at a known place, or in exactly one place of exactly one file's list. */
module BlockPool {
  import opened DistinctLists

  datatype Owner = OnFree(k: int) | InFile(f: int, k: int)

  /** `free` is the free list with its first block last, so that taking a block pops the end. */
  datatype Pool = Pool(free: seq<int>, lists: seq<seq<int>>, own: map<int, Owner>)

  ghost predicate Owned(p: Pool, b: int)
    requires b in p.own
  {
    match p.own[b]
    case OnFree(k) => 0 <= k < |p.free| && p.free[k] == b
    case InFile(f, k) => 0 <= f < |p.lists| && 0 <= k < |p.lists[f]| && p.lists[f][k] == b
  }

  /** The free list and the files' lists partition the range lo..hi. */
  ghost predicate PoolOk(p: Pool, lo: int, hi: int) {
    && (forall b :: b in p.own <==> lo <= b < hi)
    && (forall b :: b in p.own ==> Owned(p, b))
    && (forall k :: 0 <= k < |p.free| ==> p.free[k] in p.own && p.own[p.free[k]] == OnFree(k))
    && (forall f, k :: 0 <= f < |p.lists| && 0 <= k < |p.lists[f]| ==>
          p.lists[f][k] in p.own && p.own[p.lists[f][k]] == InFile(f, k))
  }

  function Head(free: seq<int>): int { if free == [] then -1 else free[|free| - 1] }

  /** What follows position k of a free list. */
  function Link(free: seq<int>, k: nat): int
    requires k < |free|
  {
    if k == 0 then -1 else free[k - 1]
  }

  function Take(p: Pool, f: nat): Pool
    requires p.free != [] && f < |p.lists|
  {
    var b := Head(p.free);
    Pool(p.free[..|p.free| - 1], p.lists[f := p.lists[f] + [b]], p.own[b := InFile(f, |p.lists[f]|)])
  }

  lemma TakeKeeps(p: Pool, f: nat, lo: int, hi: int)
    requires PoolOk(p, lo, hi) && p.free != [] && f < |p.lists|
    ensures PoolOk(Take(p, f), lo, hi)
  {
    var p', b := Take(p, f), Head(p.free);
    assert p.own[b] == OnFree(|p.free| - 1);
    forall x | x in p'.own
      ensures Owned(p', x)
    {
      assert Owned(p, x);
      if x == b {
        assert p'.lists[f][|p.lists[f]|] == b;
      }
    }
  }

  /** File f's first block goes back to the front of the free list. */
  function GiveBack(p: Pool, f: nat): Pool
    requires f < |p.lists| && p.lists[f] != []
  {
    Pool(p.free + [p.lists[f][0]], p.lists[f := p.lists[f][1..]],
         map b | b in p.own :: match p.own[b]
           case OnFree(_) => p.own[b]
           case InFile(g, k) => if g != f then p.own[b] else if k == 0 then OnFree(|p.free|) else InFile(f, k - 1))
  }

  lemma GiveBackKeeps(p: Pool, f: nat, lo: int, hi: int)
    requires PoolOk(p, lo, hi) && f < |p.lists| && p.lists[f] != []
    ensures PoolOk(GiveBack(p, f), lo, hi)
  {
    var p', l := GiveBack(p, f), p.lists[f];
    forall x | x in p'.own
      ensures Owned(p', x)
    {
      assert Owned(p, x);
    }
    forall g, k | 0 <= g < |p'.lists| && 0 <= k < |p'.lists[g]|
      ensures p'.lists[g][k] in p'.own && p'.own[p'.lists[g][k]] == InFile(g, k)
    {
      if g == f {
        assert p.own[l[k + 1]] == InFile(f, k + 1);
      }
    }
    assert p.own[l[0]] == InFile(f, 0);
  }

  function Reverse(s: seq<int>): (r: seq<int>)
    ensures |r| == |s| && forall k :: 0 <= k < |s| ==> r[k] == s[|s| - 1 - k]
  {
    seq(|s|, k requires 0 <= k < |s| => s[|s| - 1 - k])
  }

  function FreedList(p: Pool, f: nat, splice: bool): seq<int>
    requires f < |p.lists|
  {
    p.free + (if splice then Reverse(p.lists[f]) else p.lists[f])
  }

  /** All of file f's blocks are back on the free list: first block first out (`splice`),
      as when a whole chain is linked in front, or last block first out, as when the
      blocks are freed one by one. */
  ghost predicate Released(p: Pool, f: nat, splice: bool, p': Pool)
    requires f < |p.lists|
  {
    && p'.free == FreedList(p, f, splice)
    && p'.lists == p.lists[f := []]
  }

  /** The new place of a block that file f held at k. */
  function FreedAt(p: Pool, f: nat, splice: bool, k: int): int
    requires f < |p.lists|
  {
    |p.free| + if splice then |p.lists[f]| - 1 - k else k
  }

  lemma FreedPlace(p: Pool, f: nat, splice: bool, lo: int, hi: int, k: nat)
    requires PoolOk(p, lo, hi) && f < |p.lists| && k < |p.free| + |p.lists[f]|
    ensures FreedList(p, f, splice)[k] in p.own
    ensures var o := p.own[FreedList(p, f, splice)[k]];
      o == OnFree(k) || (o.InFile? && o.f == f && FreedAt(p, f, splice, o.k) == k)
  {
    var l, n := p.lists[f], |p.free|;
    if k < n {
      assert FreedList(p, f, splice)[k] == p.free[k];
    } else {
      var j := if splice then |l| - 1 - (k - n) else k - n;
      assert FreedList(p, f, splice)[k] == l[j];
      assert p.own[l[j]] == InFile(f, j);
    }
  }

  lemma FreedHolds(p: Pool, f: nat, splice: bool, lo: int, hi: int, b: int)
    requires PoolOk(p, lo, hi) && f < |p.lists| && b in p.own
    ensures p.own[b].OnFree? ==> 0 <= p.own[b].k < |p.free| && FreedList(p, f, splice)[p.own[b].k] == b
    ensures p.own[b].InFile? && p.own[b].f == f ==>
      var k := FreedAt(p, f, splice, p.own[b].k); 0 <= k < |p.free| + |p.lists[f]| && FreedList(p, f, splice)[k] == b
  {
    assert Owned(p, b);
  }

  lemma Release(p: Pool, f: nat, splice: bool, lo: int, hi: int) returns (p': Pool)
    requires PoolOk(p, lo, hi) && f < |p.lists|
    ensures Released(p, f, splice, p') && PoolOk(p', lo, hi)
    ensures Head(p'.free) == -1 || lo <= Head(p'.free) < hi
  {
    p' := Pool(FreedList(p, f, splice), p.lists[f := []],
               map b | b in p.own :: if p.own[b].InFile? && p.own[b].f == f then OnFree(FreedAt(p, f, splice, p.own[b].k)) else p.own[b]);
    forall b | b in p'.own
      ensures Owned(p', b)
    {
      assert Owned(p, b);
      FreedHolds(p, f, splice, lo, hi, b);
    }
    forall k | 0 <= k < |p'.free|
      ensures p'.free[k] in p'.own && p'.own[p'.free[k]] == OnFree(k)
    {
      FreedPlace(p, f, splice, lo, hi, k);
    }
    if p'.free != [] {
      assert p'.free[|p'.free| - 1] in p'.own;
    }
  }

  /** Room for one more file, with no blocks yet; or only the first n files, when the rest hold none. */
  lemma ResizeKeeps(p: Pool, lists: seq<seq<int>>, lo: int, hi: int)
    requires PoolOk(p, lo, hi)
    requires forall f :: 0 <= f < |p.lists| && f < |lists| ==> lists[f] == p.lists[f]
    requires forall f :: |p.lists| <= f < |lists| ==> lists[f] == []
    requires forall f :: |lists| <= f < |p.lists| ==> p.lists[f] == []
    ensures PoolOk(p.(lists := lists), lo, hi)
  {
    var p' := p.(lists := lists);
    forall x | x in p'.own
      ensures Owned(p', x)
    {
      assert Owned(p, x);
    }
  }

  /** Place on the all-free list, which runs downwards from hi - 1, and its inverse. */
  function Place(hi: int, b: int): int { hi - 1 - b }

  /** A pool that starts with every block free, lowest block first out. */
  function AllFree(lo: int, hi: int): Pool
    requires lo <= hi
  {
    Pool(seq(hi - lo, k requires 0 <= k < hi - lo => Place(hi, k)), [],
         map b | lo <= b < hi :: OnFree(Place(hi, b)))
  }

  lemma AllFreeOk(lo: int, hi: int)
    requires lo <= hi
    ensures PoolOk(AllFree(lo, hi), lo, hi)
  {
    var p := AllFree(lo, hi);
    forall x | x in p.own
      ensures Owned(p, x)
    {
      assert p.free[Place(hi, x)] == x;
    }
  }

  /** A list without repetitions is no longer than the range its members come from. */
  lemma {:induction false} Pigeonhole(l: seq<int>, lo: int, hi: int)
    requires lo <= hi
    requires forall k :: 0 <= k < |l| ==> lo <= l[k] < hi
    requires forall j, k :: 0 <= j < k < |l| ==> l[j] != l[k]
    ensures |l| <= hi - lo
    decreases hi - lo
  {
    if l != [] {
      assert lo <= l[0] < hi;
      if exists k :: 0 <= k < |l| && l[k] == hi - 1 {
        var k :| 0 <= k < |l| && l[k] == hi - 1;
        Pigeonhole(l[..k] + l[k + 1..], lo, hi - 1);
      } else {
        Pigeonhole(l, lo, hi - 1);
      }
    }
  }

  /** A file's blocks are distinct, lie in the range, and none of them is free. */
  lemma FileBlocks(p: Pool, f: nat, lo: int, hi: int)
    requires PoolOk(p, lo, hi) && f < |p.lists|
    ensures Distinct(p.lists[f])
    ensures forall k :: 0 <= k < |p.lists[f]| ==> lo <= p.lists[f][k] < hi && p.own[p.lists[f][k]] == InFile(f, k)
    ensures p.free != [] ==> Head(p.free) !in p.lists[f]
  {
    var l := p.lists[f];
    forall k | 0 <= k < |l|
      ensures lo <= l[k] < hi && p.own[l[k]] == InFile(f, k)
    {
      assert p.lists[f][k] in p.own;
    }
    if p.free != [] {
      assert p.own[p.free[|p.free| - 1]] == OnFree(|p.free| - 1);
    }
  }

  /** The block that Take hands out. */
  lemma HeadOk(p: Pool, lo: int, hi: int)
    requires PoolOk(p, lo, hi)
    ensures Head(p.free) == -1 || lo <= Head(p.free) < hi
    ensures p.free != [] ==> Head(p.free) in p.own && p.own[Head(p.free)] == OnFree(|p.free| - 1)
  {
    if p.free != [] {
      assert p.free[|p.free| - 1] in p.own;
    }
  }

  lemma FileFits(p: Pool, f: nat, lo: int, hi: int)
    requires PoolOk(p, lo, hi) && lo <= hi && f < |p.lists|
    ensures |p.lists[f]| <= hi - lo
  {
    forall j, k | 0 <= j < k < |p.lists[f]|
      ensures p.lists[f][j] != p.lists[f][k]
    {
      assert p.own[p.lists[f][j]] == InFile(f, j) && p.own[p.lists[f][k]] == InFile(f, k);
    }
    Pigeonhole(p.lists[f], lo, hi);
  }
}
