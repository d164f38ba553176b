/** What the quick sort works with: orders, exchanges, and the three parts of a segment. */
module Sorting {

  /** A comparison function in the manner of strcmp. */
  type Order<!T> = (T, T) -> int

  ghost predicate Le<T>(cmp: Order<T>, x: T, y: T) { cmp(x, y) <= 0 }

  ghost predicate Mirrored<T>(cmp: Order<T>, x: T, y: T) { cmp(x, y) < 0 <==> cmp(y, x) > 0 }

  /** The comparison is a total preorder: equal elements need not be the same. */
  ghost predicate Preorder<T(!new)>(cmp: Order<T>) {
    && (forall x, y {:trigger Mirrored(cmp, x, y)} :: Mirrored(cmp, x, y))
    && (forall x, y, z {:trigger Le(cmp, x, y), Le(cmp, y, z)} :: Le(cmp, x, y) && Le(cmp, y, z) ==> Le(cmp, x, z))
  }

  /** An element that equals p compares with any other as p does. */
  lemma LikePivot<T(!new)>(cmp: Order<T>, x: T, y: T, p: T)
    requires Preorder(cmp) && cmp(y, p) == 0
    ensures (cmp(x, y) < 0 <==> cmp(x, p) < 0) && (cmp(x, y) == 0 <==> cmp(x, p) == 0)
    ensures (cmp(y, x) > 0 <==> cmp(x, p) < 0) && (cmp(y, x) == 0 <==> cmp(x, p) == 0)
  {
    assert Mirrored(cmp, x, y) && Mirrored(cmp, y, x) && Mirrored(cmp, x, p) && Mirrored(cmp, p, x) && Mirrored(cmp, y, p) && Mirrored(cmp, p, y);
    assert Le(cmp, y, p) && Le(cmp, p, y);
    assert Le(cmp, x, y) <==> Le(cmp, x, p);
    assert Le(cmp, y, x) <==> Le(cmp, p, x);
  }

  /** What is not above p, and what is not below it, are in order. */
  lemma AroundPivot<T(!new)>(cmp: Order<T>, x: T, y: T, p: T)
    requires Preorder(cmp) && cmp(x, p) <= 0 && cmp(y, p) >= 0
    ensures cmp(x, y) <= 0
  {
    assert Mirrored(cmp, p, y) && Mirrored(cmp, y, p);
    assert Le(cmp, x, p) && Le(cmp, p, y);
  }

  lemma SelfEqual<T(!new)>(cmp: Order<T>, x: T)
    requires Preorder(cmp)
    ensures cmp(x, x) == 0
  {
    assert Mirrored(cmp, x, x);
  }

  // ---- exchanges

  function Swapped<T>(s: seq<T>, i: int, j: int): seq<T>
    requires 0 <= i < |s| && 0 <= j < |s|
  {
    s[i := s[j]][j := s[i]]
  }

  /** Three places, each getting what another has: i from k, k from j, j from i. */
  function Cycled<T>(s: seq<T>, i: int, j: int, k: int): seq<T>
    requires 0 <= i < |s| && 0 <= j < |s| && 0 <= k < |s|
  {
    var s1 := s[i := s[k]];
    var s2 := s1[k := s1[j]];
    s2[j := s[i]]
  }

  /** The elements from lo up to hi are rearranged, the others stay. */
  ghost predicate Permuted<T>(s: seq<T>, t: seq<T>, lo: int, hi: int) {
    && |s| == |t| && 0 <= lo <= hi <= |s| && t[..lo] == s[..lo] && t[hi..] == s[hi..]
    && multiset(t[lo..hi]) == multiset(s[lo..hi])
  }

  lemma {:induction false} MultisetSwap<T>(s: seq<T>, i: int, j: int)
    requires 0 <= i < |s| && 0 <= j < |s|
    ensures multiset(Swapped(s, i, j)) == multiset(s)
  {
    hide Swapped;
    SwappedEven(s, i, j);
    if i > j {
      MultisetSwap(s, j, i);
    } else if i < j {
      CutAt(s, i, j);
      SwappedCut(s, i, j);
      Exchanged(s[..i], s[i], s[i + 1..j], s[j], s[j + 1..]);
    }
  }

  lemma SwappedEven<T>(s: seq<T>, i: int, j: int)
    requires 0 <= i < |s| && 0 <= j < |s|
    ensures Swapped(s, i, j) == Swapped(s, j, i) && (i == j ==> Swapped(s, i, j) == s)
  {
  }

  lemma CutAt<T>(s: seq<T>, i: int, j: int)
    requires 0 <= i < j < |s|
    ensures s[..i] + [s[i]] + s[i + 1..j] + [s[j]] + s[j + 1..] == s
  {
  }

  lemma SwappedCut<T>(s: seq<T>, i: int, j: int)
    requires 0 <= i < j < |s|
    ensures |Swapped(s, i, j)| == |s| && s[..i] + [s[j]] + s[i + 1..j] + [s[i]] + s[j + 1..] == Swapped(s, i, j)
  {
    var t := Swapped(s, i, j);
    CutAt(t, i, j);
    assert t[..i] == s[..i] && t[i + 1..j] == s[i + 1..j] && t[j + 1..] == s[j + 1..];
  }

  lemma Exchanged<T>(a: seq<T>, x: T, b: seq<T>, y: T, c: seq<T>)
    ensures multiset(a + [x] + b + [y] + c) == multiset(a + [y] + b + [x] + c)
  {
    assert multiset(a + [x] + b + [y] + c) == multiset(a) + multiset{x} + multiset(b) + multiset{y} + multiset(c);
    assert multiset(a + [y] + b + [x] + c) == multiset(a) + multiset{y} + multiset(b) + multiset{x} + multiset(c);
  }

  lemma SwapPermutes<T>(s: seq<T>, lo: int, hi: int, i: int, j: int)
    requires 0 <= lo <= i < hi <= |s| && lo <= j < hi
    ensures Permuted(s, Swapped(s, i, j), lo, hi)
  {
    MultisetSwap(s[lo..hi], i - lo, j - lo);
    assert Swapped(s, i, j)[lo..hi] == Swapped(s[lo..hi], i - lo, j - lo);
  }

  lemma CyclePermutes<T>(s: seq<T>, lo: int, hi: int, i: int, j: int, k: int)
    requires 0 <= lo <= i < hi <= |s| && lo <= j < hi && lo <= k < hi && i != j && i != k
    ensures Permuted(s, Cycled(s, i, j, k), lo, hi)
  {
    hide Permuted;
    var t := Swapped(s, i, k);
    SwapPermutes(s, lo, hi, i, k);
    SwapPermutes(t, lo, hi, k, j);
    PermutedTwice(s, t, Swapped(t, k, j), lo, hi);
    CycleIsSwaps(s, i, j, k);
  }

  lemma CycleIsSwaps<T>(s: seq<T>, i: int, j: int, k: int)
    requires 0 <= i < |s| && 0 <= j < |s| && 0 <= k < |s| && i != j && i != k
    ensures |Swapped(s, i, k)| == |s| && Cycled(s, i, j, k) == Swapped(Swapped(s, i, k), k, j)
  {
    var t, u := Cycled(s, i, j, k), Swapped(Swapped(s, i, k), k, j);
    forall m | 0 <= m < |s|
      ensures t[m] == u[m]
    {
    }
  }

  lemma PermutedSelf<T>(s: seq<T>, lo: int, hi: int)
    requires 0 <= lo <= hi <= |s|
    ensures Permuted(s, s, lo, hi)
  {
  }

  lemma PermutedTwice<T>(s: seq<T>, t: seq<T>, u: seq<T>, lo: int, hi: int)
    requires Permuted(s, t, lo, hi) && Permuted(t, u, lo, hi)
    ensures Permuted(s, u, lo, hi)
  {
  }

  /** A rearrangement of a part is one of the whole. */
  lemma PermutedInside<T>(s: seq<T>, t: seq<T>, lo: int, hi: int, lo': int, hi': int)
    requires Permuted(s, t, lo, hi) && 0 <= lo' <= lo && hi <= hi' <= |s|
    ensures Permuted(s, t, lo', hi')
  {
    assert s[lo'..hi'] == s[lo'..lo] + s[lo..hi] + s[hi..hi'];
    assert t[lo'..hi'] == t[lo'..lo] + t[lo..hi] + t[hi..hi'];
    assert t[lo'..lo] == t[..lo][lo'..] && s[lo'..lo] == s[..lo][lo'..];
    assert t[hi..hi'] == t[hi..][..hi' - hi] && s[hi..hi'] == s[hi..][..hi' - hi];
    assert t[..lo'] == t[..lo][..lo'] && s[..lo'] == s[..lo][..lo'];
    assert t[hi'..] == t[hi..][hi' - hi..] && s[hi'..] == s[hi..][hi' - hi..];
  }

  /** Everything in the part was there before. */
  lemma WasThere<T>(s: seq<T>, t: seq<T>, lo: int, hi: int, x: int) returns (y: int)
    requires Permuted(s, t, lo, hi) && lo <= x < hi
    ensures lo <= y < hi && s[y] == t[x]
  {
    assert t[lo..hi][x - lo] in multiset(t[lo..hi]);
    assert t[x] in s[lo..hi];
    var z :| 0 <= z < hi - lo && s[lo..hi][z] == t[x];
    y := z + lo;
  }

  lemma StaysThere<T>(s: seq<T>, t: seq<T>, lo: int, hi: int, x: int)
    requires Permuted(s, t, lo, hi) && 0 <= x < |s| && !(lo <= x < hi)
    ensures t[x] == s[x]
  {
    if x < lo {
      assert t[..lo][x] == s[..lo][x];
    } else {
      assert t[hi..][x - hi] == s[hi..][x - hi];
    }
  }

  // ---- the three parts

  /** From lo to i the elements are below p, from lp to hp they equal p, and after j they are above
      it; those from i to lp and from hp to j have not been looked at. */
  ghost predicate Split<T>(s: seq<T>, cmp: Order<T>, p: T, lo: int, i: int, lp: int, hp: int, j: int, hi: int) {
    && 0 <= lo <= i <= lp <= hp <= j < hi <= |s|
    && (forall k {:trigger s[k]} :: lo <= k < i ==> cmp(s[k], p) < 0)
    && (forall k {:trigger s[k]} :: lp <= k <= hp ==> cmp(s[k], p) == 0)
    && (forall k {:trigger s[k]} :: j < k < hi ==> cmp(s[k], p) > 0)
  }

  /** All pairs are in order but those inside lo to hi. */
  ghost predicate Done<T>(s: seq<T>, cmp: Order<T>, lo0: int, lo: int, hi: int, hi0: int) {
    && 0 <= lo0 <= lo <= hi0 <= |s| && lo0 <= hi <= hi0
    && forall x, y :: lo0 <= x < y < hi0 && !(lo <= x && y < hi) ==> cmp(s[x], s[y]) <= 0
  }

  ghost predicate Sorted<T>(s: seq<T>, cmp: Order<T>, lo: int, hi: int)
    requires 0 <= lo <= hi <= |s|
  {
    forall x, y :: lo <= x < y < hi ==> cmp(s[x], s[y]) <= 0
  }

  /** Rearranging the part that is still open leaves the rest done. */
  lemma DoneStays<T>(s: seq<T>, t: seq<T>, cmp: Order<T>, lo0: int, lo: int, hi: int, hi0: int)
    requires Done(s, cmp, lo0, lo, hi, hi0) && lo <= hi && Permuted(s, t, lo, hi)
    ensures Done(t, cmp, lo0, lo, hi, hi0)
  {
    forall x, y | lo0 <= x < y < hi0 && !(lo <= x && y < hi)
      ensures cmp(t[x], t[y]) <= 0
    {
      var x', y' := x, y;
      if lo <= x < hi {
        x' := WasThere(s, t, lo, hi, x);
      } else {
        StaysThere(s, t, lo, hi, x);
      }
      if lo <= y < hi {
        y' := WasThere(s, t, lo, hi, y);
      } else {
        StaysThere(s, t, lo, hi, y);
      }
    }
  }

  /** Elements of one part only move inside it. */
  ghost predicate Parts<T>(s: seq<T>, cmp: Order<T>, p: T, lo: int, lp: int, hp: int, hi: int) {
    && 0 <= lo <= lp <= hp < hi <= |s|
    && (forall k {:trigger s[k]} :: lo <= k < lp ==> cmp(s[k], p) < 0)
    && (forall k {:trigger s[k]} :: lp <= k <= hp ==> cmp(s[k], p) == 0)
    && (forall k {:trigger s[k]} :: hp < k < hi ==> cmp(s[k], p) > 0)
  }

  lemma PartsStay<T>(s: seq<T>, t: seq<T>, cmp: Order<T>, p: T, lo: int, lp: int, hp: int, hi: int, from: int, to: int)
    requires Parts(s, cmp, p, lo, lp, hp, hi) && Permuted(s, t, from, to)
    requires (from == lo && to == lp) || (from == hp + 1 && to == hi)
    ensures Parts(t, cmp, p, lo, lp, hp, hi)
  {
    forall k | lo <= k < hi
      ensures if k < lp then cmp(t[k], p) < 0 else if k <= hp then cmp(t[k], p) == 0 else cmp(t[k], p) > 0
    {
      if from <= k < to {
        var k' := WasThere(s, t, from, to, k);
      } else {
        StaysThere(s, t, from, to, k);
      }
    }
  }

  /** One side of the pivot sorted: what is left open is the other side. */
  lemma DoneOneSide<T(!new)>(t: seq<T>, cmp: Order<T>, p: T, lo0: int, lo: int, lp: int, hp: int, hi: int, hi0: int)
    requires Preorder(cmp) && Done(t, cmp, lo0, lo, hi, hi0) && Parts(t, cmp, p, lo, lp, hp, hi)
    ensures Sorted(t, cmp, hp + 1, hi) ==> Done(t, cmp, lo0, lo, lp, hi0)
    ensures Sorted(t, cmp, lo, lp) ==> Done(t, cmp, lo0, hp + 1, hi, hi0)
  {
    forall x, y | lo <= x < y < hi && !(y < lp) && !(x > hp)
      ensures cmp(t[x], t[y]) <= 0
    {
      AroundPivot(cmp, t[x], t[y], p);
    }
  }

  // ---- the steps of a partition

  ghost predicate StepSpelledOut<T>(s: seq<T>) { true }

  /** Where a partition stands: s0 is what it began with. */
  ghost predicate Round<T>(s0: seq<T>, s: seq<T>, cmp: Order<T>, p: T, lo: int, i: int, lp: int, hp: int, j: int, hi: int) {
    && 0 <= lo <= i <= lp <= hp <= j < hi <= |s|
    && forall x {:trigger StepSpelledOut(x)} :: x == s ==> Split(x, cmp, p, lo, i, lp, hp, j, hi) && Permuted(s0, x, lo, hi)
  }

  lemma RoundIs<T>(s0: seq<T>, s: seq<T>, cmp: Order<T>, p: T, lo: int, i: int, lp: int, hp: int, j: int, hi: int)
    ensures Round(s0, s, cmp, p, lo, i, lp, hp, j, hi) <==> Split(s, cmp, p, lo, i, lp, hp, j, hi) && Permuted(s0, s, lo, hi)
  {
    assert StepSpelledOut(s);
  }

  /** A round goes on with s' when that is s rearranged and split as the new places say. */
  lemma RoundOn<T>(s0: seq<T>, s: seq<T>, s': seq<T>, cmp: Order<T>, p: T, lo: int, i: int, lp: int, hp: int, j: int, hi: int)
    requires Permuted(s0, s, lo, hi) && Permuted(s, s', lo, hi) && Split(s', cmp, p, lo, i, lp, hp, j, hi)
    ensures Round(s0, s', cmp, p, lo, i, lp, hp, j, hi)
  {
    assert Permuted(s0, s', lo, hi);
    RoundIs(s0, s', cmp, p, lo, i, lp, hp, j, hi);
  }

  lemma SwappedAt<T>(s: seq<T>, i: int, j: int)
    requires 0 <= i < |s| && 0 <= j < |s|
    ensures var t := Swapped(s, i, j); |t| == |s| && t[i] == s[j] && t[j] == s[i] && forall k :: 0 <= k < |s| && k != i && k != j ==> t[k] == s[k]
  {
  }

  lemma CycledAt<T>(s: seq<T>, i: int, j: int, k: int)
    requires 0 <= i < |s| && 0 <= j < |s| && 0 <= k < |s| && i != j && i != k
    ensures var t := Cycled(s, i, j, k);
      && |t| == |s| && t[i] == s[k] && t[j] == s[i] && (k != j ==> t[k] == s[j])
      && forall m :: 0 <= m < |s| && m != i && m != j && m != k ==> t[m] == s[m]
  {
  }

  /** An element that equals the pivot joins the middle part, from either side. */
  lemma SplitEqual<T>(s: seq<T>, cmp: Order<T>, p: T, lo: int, i: int, lp: int, hp: int, j: int, hi: int)
    requires Split(s, cmp, p, lo, i, lp, hp, j, hi)
    ensures i < lp && cmp(s[i], p) == 0 ==> Split(Swapped(s, i, lp - 1), cmp, p, lo, i, lp - 1, hp, j, hi)
    ensures hp < j && cmp(s[j], p) == 0 ==> Split(Swapped(s, hp + 1, j), cmp, p, lo, i, lp, hp + 1, j, hi)
  {
    if i < lp {
      SwappedAt(s, i, lp - 1);
    }
    if hp < j {
      SwappedAt(s, hp + 1, j);
    }
  }

  /** Two elements on the wrong sides change places. */
  lemma SplitCross<T>(s: seq<T>, cmp: Order<T>, p: T, lo: int, i: int, lp: int, hp: int, j: int, hi: int)
    requires Split(s, cmp, p, lo, i, lp, hp, j, hi) && i < lp && hp < j && cmp(s[i], p) > 0 && cmp(s[j], p) < 0
    ensures Split(Swapped(s, i, j), cmp, p, lo, i + 1, lp, hp, j - 1, hi)
  {
    SwappedAt(s, i, j);
  }

  /** The element at i is below the pivot, or equals it and goes to the middle part. */
  lemma LowStep<T(!new)>(s0: seq<T>, s: seq<T>, cmp: Order<T>, p: T, lo: int, i: int, lp: int, hp: int, j: int, hi: int)
    requires Preorder(cmp) && Round(s0, s, cmp, p, lo, i, lp, hp, j, hi) && i < lp
    ensures cmp(s[i], s[lp]) == 0 ==> Round(s0, Swapped(s, i, lp - 1), cmp, p, lo, i, lp - 1, hp, j, hi)
    ensures cmp(s[i], s[lp]) < 0 ==> Round(s0, s, cmp, p, lo, i + 1, lp, hp, j, hi)
    ensures cmp(s[i], s[lp]) > 0 ==> cmp(s[i], p) > 0
  {
    hide Permuted, Swapped, Preorder;
    RoundIs(s0, s, cmp, p, lo, i, lp, hp, j, hi);
    LikePivot(cmp, s[i], s[lp], p);
    if cmp(s[i], s[lp]) == 0 {
      SwapPermutes(s, lo, hi, i, lp - 1);
      SplitEqual(s, cmp, p, lo, i, lp, hp, j, hi);
      RoundOn(s0, s, Swapped(s, i, lp - 1), cmp, p, lo, i, lp - 1, hp, j, hi);
    } else if cmp(s[i], s[lp]) < 0 {
      RoundIs(s0, s, cmp, p, lo, i + 1, lp, hp, j, hi);
    }
  }

  /** The element at j equals the pivot, or is above it. */
  lemma HighStep<T(!new)>(s0: seq<T>, s: seq<T>, cmp: Order<T>, p: T, lo: int, i: int, lp: int, hp: int, j: int, hi: int)
    requires Preorder(cmp) && Round(s0, s, cmp, p, lo, i, lp, hp, j, hi) && hp < j
    ensures cmp(s[hp], s[j]) == 0 ==> Round(s0, Swapped(s, hp + 1, j), cmp, p, lo, i, lp, hp + 1, j, hi)
    ensures cmp(s[hp], s[j]) < 0 ==> Round(s0, s, cmp, p, lo, i, lp, hp, j - 1, hi)
  {
    hide Permuted, Swapped, Preorder;
    RoundIs(s0, s, cmp, p, lo, i, lp, hp, j, hi);
    LikePivot(cmp, s[j], s[hp], p);
    if cmp(s[hp], s[j]) == 0 {
      SwapPermutes(s, lo, hi, hp + 1, j);
      SplitEqual(s, cmp, p, lo, i, lp, hp, j, hi);
      RoundOn(s0, s, Swapped(s, hp + 1, j), cmp, p, lo, i, lp, hp + 1, j, hi);
    } else if cmp(s[hp], s[j]) < 0 {
      RoundIs(s0, s, cmp, p, lo, i, lp, hp, j - 1, hi);
    }
  }

  /** The element at j belongs below, and nothing is left below to change places with: the middle
      part moves up. */
  lemma DownStep<T(!new)>(s0: seq<T>, s: seq<T>, cmp: Order<T>, p: T, lo: int, lp: int, hp: int, j: int, hi: int)
    requires Preorder(cmp) && Round(s0, s, cmp, p, lo, lp, lp, hp, j, hi) && hp < j && cmp(s[hp], s[j]) > 0
    ensures Round(s0, Cycled(s, lp, hp + 1, j), cmp, p, lo, lp + 1, lp + 1, hp + 1, j, hi)
  {
    hide Permuted, Cycled, Preorder;
    RoundIs(s0, s, cmp, p, lo, lp, lp, hp, j, hi);
    LikePivot(cmp, s[j], s[hp], p);
    CyclePermutes(s, lo, hi, lp, hp + 1, j);
    SplitUp(s, cmp, p, lo, lp, hp, j, hi);
    RoundOn(s0, s, Cycled(s, lp, hp + 1, j), cmp, p, lo, lp + 1, lp + 1, hp + 1, j, hi);
  }

  /** The element at j belongs below, and the one at i above: they change places. */
  lemma CrossStep<T(!new)>(s0: seq<T>, s: seq<T>, cmp: Order<T>, p: T, lo: int, i: int, lp: int, hp: int, j: int, hi: int)
    requires Preorder(cmp) && Round(s0, s, cmp, p, lo, i, lp, hp, j, hi) && hp < j && cmp(s[hp], s[j]) > 0
    requires i < lp && cmp(s[i], p) > 0
    ensures Round(s0, Swapped(s, i, j), cmp, p, lo, i + 1, lp, hp, j - 1, hi)
  {
    hide Permuted, Swapped, Preorder;
    RoundIs(s0, s, cmp, p, lo, i, lp, hp, j, hi);
    LikePivot(cmp, s[j], s[hp], p);
    SwapPermutes(s, lo, hi, i, j);
    SplitCross(s, cmp, p, lo, i, lp, hp, j, hi);
    RoundOn(s0, s, Swapped(s, i, j), cmp, p, lo, i + 1, lp, hp, j - 1, hi);
  }

  /** The middle part moves one place up. */
  lemma SplitUp<T>(s: seq<T>, cmp: Order<T>, p: T, lo: int, lp: int, hp: int, j: int, hi: int)
    requires Split(s, cmp, p, lo, lp, lp, hp, j, hi) && hp < j && cmp(s[j], p) < 0
    ensures Split(Cycled(s, lp, hp + 1, j), cmp, p, lo, lp + 1, lp + 1, hp + 1, j, hi)
  {
    CycledAt(s, lp, hp + 1, j);
  }

  /** The middle part moves one place down. */
  lemma SplitDown<T>(s: seq<T>, cmp: Order<T>, p: T, lo: int, i: int, lp: int, hp: int, hi: int)
    requires Split(s, cmp, p, lo, i, lp, hp, hp, hi) && i < lp && cmp(s[i], p) > 0
    ensures Split(Cycled(s, hp, lp - 1, i), cmp, p, lo, i, lp - 1, hp - 1, hp - 1, hi)
  {
    CycledAt(s, hp, lp - 1, i);
  }

  /** The element at i belongs above, and nothing is left there to change places with: the middle
      part moves down. */
  lemma UpStep<T(!new)>(s0: seq<T>, s: seq<T>, cmp: Order<T>, p: T, lo: int, i: int, lp: int, hp: int, hi: int)
    requires Preorder(cmp) && Round(s0, s, cmp, p, lo, i, lp, hp, hp, hi) && i < lp && cmp(s[i], p) > 0
    ensures Round(s0, Cycled(s, hp, lp - 1, i), cmp, p, lo, i, lp - 1, hp - 1, hp - 1, hi)
  {
    hide Permuted, Cycled, Preorder;
    RoundIs(s0, s, cmp, p, lo, i, lp, hp, hp, hi);
    CyclePermutes(s, lo, hi, hp, lp - 1, i);
    SplitDown(s, cmp, p, lo, i, lp, hp, hi);
    RoundOn(s0, s, Cycled(s, hp, lp - 1, i), cmp, p, lo, i, lp - 1, hp - 1, hp - 1, hi);
  }

  // ---- the steps of the sort

  /** Where the sort stands: lo0 to hi0 is what it was called for, lo to hi is still open. */
  ghost predicate Progress<T>(s0: seq<T>, s: seq<T>, cmp: Order<T>, lo0: int, lo: int, hi: int, hi0: int) {
    && 0 <= lo0 <= lo <= hi <= hi0 <= |s|
    && forall x {:trigger StepSpelledOut(x)} :: x == s ==> Permuted(s0, x, lo0, hi0) && Done(x, cmp, lo0, lo, hi, hi0)
  }

  lemma ProgressIs<T>(s0: seq<T>, s: seq<T>, cmp: Order<T>, lo0: int, lo: int, hi: int, hi0: int)
    ensures Progress(s0, s, cmp, lo0, lo, hi, hi0) <==> lo <= hi && Permuted(s0, s, lo0, hi0) && Done(s, cmp, lo0, lo, hi, hi0)
  {
    assert StepSpelledOut(s);
  }

  lemma ProgressStart<T>(s: seq<T>, cmp: Order<T>, lo: int, hi: int)
    requires 0 <= lo <= hi <= |s|
    ensures Progress(s, s, cmp, lo, lo, hi, hi)
  {
    ProgressIs(s, s, cmp, lo, lo, hi, hi);
  }

  lemma ProgressEnd<T(!new)>(s0: seq<T>, s: seq<T>, cmp: Order<T>, lo0: int, lo: int, hi: int, hi0: int)
    requires Preorder(cmp) && Progress(s0, s, cmp, lo0, lo, hi, hi0) && hi - lo <= 1
    ensures Permuted(s0, s, lo0, hi0) && Sorted(s, cmp, lo0, hi0)
  {
    ProgressIs(s0, s, cmp, lo0, lo, hi, hi0);
  }

  /** s in three parts is t, and t with one of the outer parts sorted is u: what is left is the
      other one. */
  lemma HalfSorted<T(!new)>(s0: seq<T>, s: seq<T>, t: seq<T>, u: seq<T>, cmp: Order<T>, p: T, lo0: int, lo: int, lp: int, hp: int, hi: int, hi0: int, from: int, to: int)
    requires Preorder(cmp) && Progress(s0, s, cmp, lo0, lo, hi, hi0) && Permuted(s, t, lo, hi) && Parts(t, cmp, p, lo, lp, hp, hi)
    requires (from == lo && to == lp) || (from == hp + 1 && to == hi)
    requires Permuted(t, u, from, to) && Sorted(u, cmp, from, to)
    ensures if from == hp + 1 && to == hi then Progress(s0, u, cmp, lo0, lo, lp, hi0) else Progress(s0, u, cmp, lo0, hp + 1, hi, hi0)
  {
    assert StepSpelledOut(s);
    DoneStays(s, t, cmp, lo0, lo, hi, hi0);
    PermutedInside(s, t, lo, hi, lo0, hi0);
    PermutedInside(t, u, from, to, lo, hi);
    DoneStays(t, u, cmp, lo0, lo, hi, hi0);
    PermutedInside(t, u, from, to, lo0, hi0);
    PartsStay(t, u, cmp, p, lo, lp, hp, hi, from, to);
    DoneOneSide(u, cmp, p, lo0, lo, lp, hp, hi, hi0);
    if from == hp + 1 && to == hi {
      ProgressIs(s0, u, cmp, lo0, lo, lp, hi0);
    } else {
      ProgressIs(s0, u, cmp, lo0, hp + 1, hi, hi0);
    }
  }
}
