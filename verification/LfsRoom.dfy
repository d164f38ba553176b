/** How much fits on the disk, in terms of the files alone. */
module LfsRoom {
  import opened DistinctLists
  import opened LfsFormat
  import opened BlockPool
  import opened LfsModel
  import opened LfsSteps
  import opened LfsSpec
  import opened LocalFileSystem

  // ---- counting blocks

  function SumLens(lists: seq<seq<int>>): nat {
    if lists == [] then 0 else SumLens(lists[..|lists| - 1]) + |lists[|lists| - 1]|
  }

  /** The blocks of the first n files, file by file. */
  function Flat(lists: seq<seq<int>>, n: nat): seq<int>
    requires n <= |lists|
  {
    if n == 0 then [] else Flat(lists, n - 1) + lists[n - 1]
  }

  lemma {:induction false} FlatLength(lists: seq<seq<int>>, n: nat)
    requires n <= |lists|
    ensures |Flat(lists, n)| == SumLens(lists[..n])
  {
    if n > 0 {
      FlatLength(lists, n - 1);
      assert lists[..n][..n - 1] == lists[..n - 1];
    }
  }

  lemma {:induction false} FlatIs(p: Pool, lo: int, hi: int, n: nat)
    requires PoolOk(p, lo, hi) && n <= |p.lists|
    ensures Distinct(Flat(p.lists, n))
    ensures forall x :: x in Flat(p.lists, n) <==> x in p.own && p.own[x].InFile? && 0 <= p.own[x].f < n
  {
    if n > 0 {
      FlatIs(p, lo, hi, n - 1);
      var u, l := Flat(p.lists, n - 1), p.lists[n - 1];
      FileBlocks(p, n - 1, lo, hi);
      forall x
        ensures x in u + l <==> x in p.own && p.own[x].InFile? && 0 <= p.own[x].f < n
      {
        if x in p.own && p.own[x].InFile? && p.own[x].f == n - 1 {
          assert Owned(p, x);
        }
      }
      DistinctJoin(u, l);
    }
  }

  lemma DistinctJoin(a: seq<int>, b: seq<int>)
    requires Distinct(a) && Distinct(b) && forall x :: x in a ==> x !in b
    ensures Distinct(a + b)
  {
    forall j, k | 0 <= j < |a + b| && 0 <= k < |a + b| && j != k
      ensures (a + b)[j] != (a + b)[k]
    {
      assert j < |a| ==> (a + b)[j] in a;
      assert k < |a| ==> (a + b)[k] in a;
      assert j >= |a| ==> (a + b)[j] == b[j - |a|];
      assert k >= |a| ==> (a + b)[k] == b[k - |a|];
    }
  }

  /** A list that misses nothing of a range is at least as long as the range. */
  lemma {:induction false} Covering(l: seq<int>, lo: int, hi: int)
    requires forall x :: lo <= x < hi ==> x in l
    ensures |l| >= hi - lo
    decreases hi - lo
  {
    if lo < hi {
      assert hi - 1 in l;
      var k :| 0 <= k < |l| && l[k] == hi - 1;
      var r := l[..k] + l[k + 1..];
      forall x | lo <= x < hi - 1
        ensures x in r
      {
        assert x in l;
        var j :| 0 <= j < |l| && l[j] == x;
        assert x == if j < k then r[j] else r[j - 1];
      }
      Covering(r, lo, hi - 1);
    }
  }

  /** No block is lost: those that are free and those of the files are as many as there are. */
  lemma AllCounted(p: Pool, lo: int, hi: int)
    requires PoolOk(p, lo, hi) && lo <= hi
    ensures |p.free| + SumLens(p.lists) == hi - lo
  {
    var n, l := |p.lists|, p.free + Flat(p.lists, |p.lists|);
    FlatIs(p, lo, hi, n);
    FlatLength(p.lists, n);
    assert p.lists[..n] == p.lists;
    assert Distinct(p.free);
    DistinctJoin(p.free, Flat(p.lists, n));
    forall x | x in p.own
      ensures x in l
    {
      assert Owned(p, x);
    }
    forall k | 0 <= k < |l|
      ensures l[k] in p.own
    {
      if k < |p.free| {
        assert l[k] == p.free[k];
      } else {
        assert l[k] == Flat(p.lists, n)[k - |p.free|];
        assert l[k] in Flat(p.lists, n);
      }
    }
    Covering(l, lo, hi);
    Pigeonhole(l, lo, hi);
  }

  lemma {:induction false} SumUpdate(lists: seq<seq<int>>, f: nat, l: seq<int>)
    requires f < |lists|
    ensures SumLens(lists[f := l]) == SumLens(lists) - |lists[f]| + |l|
  {
    var n := |lists| - 1;
    if f < n {
      SumUpdate(lists[..n], f, l);
      assert lists[f := l][..n] == lists[..n][f := l];
    } else {
      assert lists[f := l][..n] == lists[..n];
    }
  }

  // ---- what files need

  /** The index blocks, of 16 data blocks each, that these files need. */
  function IblksNeeded(files: seq<seq<Byte>>): nat {
    if files == [] then 0 else IblksNeeded(files[..|files| - 1]) + (|files[|files| - 1]| + 8191) / 8192
  }

  /** The data blocks, of 512 bytes each, that these files need. */
  function DblksNeeded(files: seq<seq<Byte>>): nat {
    if files == [] then 0 else DblksNeeded(files[..|files| - 1]) + (|files[|files| - 1]| + 511) / 512
  }

  /** The files fit on a disk with nib sectors of index blocks. */
  predicate Fits(nib: int, sectors: int, files: seq<seq<Byte>>) {
    IblksNeeded(files) <= 7 * nib && DblksNeeded(files) <= sectors - nib - 1
  }

  lemma {:induction false} NeededUpdate(files: seq<seq<Byte>>, f: nat, data: seq<Byte>)
    requires f < |files|
    ensures IblksNeeded(files[f := data]) == IblksNeeded(files) - (|files[f]| + 8191) / 8192 + (|data| + 8191) / 8192
    ensures DblksNeeded(files[f := data]) == DblksNeeded(files) - (|files[f]| + 511) / 512 + (|data| + 511) / 512
  {
    var n := |files| - 1;
    if f < n {
      NeededUpdate(files[..n], f, data);
      assert files[f := data][..n] == files[..n][f := data];
    } else {
      assert files[f := data][..n] == files[..n];
    }
  }

  lemma {:induction false} NeededHave(ilists: seq<seq<int>>, dlists: seq<seq<int>>, files: seq<seq<Byte>>)
    requires |ilists| == |dlists| == |files| && forall g :: 0 <= g < |files| ==> Tight(ilists[g], dlists[g], |files[g]|)
    ensures SumLens(ilists) == IblksNeeded(files) && SumLens(dlists) == DblksNeeded(files)
  {
    if files != [] {
      var n := |files| - 1;
      NeededHave(ilists[..n], dlists[..n], files[..n]);
      assert Tight(ilists[n], dlists[n], |files[n]|);
    }
  }

  /** Between operations the files have just the blocks they need, and the others are free. */
  lemma FreeBlocks(s: Fs)
    requires Inv(s)
    ensures |s.ip.free| + IblksNeeded(s.data) == 7 * s.nib && |s.dp.free| + DblksNeeded(s.data) == |s.disk| - s.nib - 1
    ensures Fits(s.nib, |s.disk|, s.data)
  {
    assert SoundSpelledOut(s);
    AllCounted(s.ip, 0, 7 * s.nib);
    AllCounted(s.dp, s.nib + 1, |s.disk|);
    forall g | 0 <= g < |s.data|
      ensures Tight(s.ip.lists[g], s.dp.lists[g], |s.data[g]|)
    {
      assert Settled(s, g);
    }
    NeededHave(s.ip.lists, s.dp.lists, s.data);
  }

  /** The blocks that file f has and could get are not enough exactly if the files, with f as it
      would be, do not fit. */
  lemma OutOfSpaceIs(s: Fs, f: int, data: seq<Byte>)
    requires Inv(s) && 0 <= f < |s.data|
    ensures OutOfSpace(Room(s, f), |data|) <==> !Fits(s.nib, |s.disk|, s.data[f := data])
  {
    FreeBlocks(s);
    NeededUpdate(s.data, f, data);
    assert Settled(s, f);
  }

  /** Files that do not grow fit as before. */
  lemma FitsStill(nib: int, sectors: int, files: seq<seq<Byte>>, f: nat, data: seq<Byte>)
    requires Fits(nib, sectors, files) && f < |files| && |data| <= |files[f]|
    ensures Fits(nib, sectors, files[f := data])
  {
    NeededUpdate(files, f, data);
  }
}
