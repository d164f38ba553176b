/** The quick sort of the library: in place, with a middle part of elements that equal the pivot. */
module QuickSort {
  import opened Powers
  import opened Sorting

  /** qsexc. */
  method Qsexc<T>(a: array<T>, i: int, j: int)
    requires 0 <= i < a.Length && 0 <= j < a.Length
    modifies a
    ensures a[..] == Swapped(old(a[..]), i, j)
  {
    var c := a[i];
    a[i] := a[j];
    a[j] := c;
  }

  /** qstexc. The places may coincide, so the order of the assignments matters. */
  method Qstexc<T>(a: array<T>, i: int, j: int, k: int)
    requires 0 <= i < a.Length && 0 <= j < a.Length && 0 <= k < a.Length
    modifies a
    ensures a[..] == Cycled(old(a[..]), i, j, k)
    ensures i != j && i != k ==> a[i] == old(a[k]) && a[j] == old(a[i]) && (k != j ==> a[k] == old(a[j]))
    ensures forall m :: 0 <= m < a.Length && m != i && m != j && m != k ==> a[m] == old(a[m])
  {
    var c := a[i];
    a[i] := a[k];
    a[k] := a[j];
    a[j] := c;
  }

  /** One round of qs1 up to the point where it recurses: the segment in three parts. */
  method Partition<T(!new)>(a: array<T>, cmp: Order<T>, lo: int, hi: int) returns (lp: int, hp: int, ghost p: T)
    requires Preorder(cmp) && 0 <= lo && lo + 1 < hi <= a.Length
    modifies a
    ensures Permuted(old(a[..]), a[..], lo, hi) && Parts(a[..], cmp, p, lo, lp, hp, hi)
  {
    hide Permuted, Swapped, Cycled, Preorder;
    ghost var s0 := a[..];
    lp := lo + (hi - lo) / 2;
    hp := lp;
    p := a[lp];
    SelfEqual(cmp, p);
    var i, j := lo, hi - 1;
    PermutedSelf(s0, lo, hi);
    RoundIs(s0, a[..], cmp, p, lo, i, lp, hp, j, hi);
    while true
      invariant Round(s0, a[..], cmp, p, lo, i, lp, hp, j, hi)
      decreases lp - i + j - hp
    {
      if i < lp {
        LowStep(s0, a[..], cmp, p, lo, i, lp, hp, j, hi);
        var c := cmp(a[i], a[lp]);
        if c == 0 {
          lp := lp - 1;
          Qsexc(a, i, lp);
          continue;
        }
        if c < 0 {
          i := i + 1;
          continue;
        }
      }
      var swapped;
      i, lp, hp, j, swapped := FromAbove(a, cmp, lo, hi, i, lp, hp, j, s0, p);
      if swapped {
        continue;
      }
      if i == lp {
        break;
      }
      UpStep(s0, a[..], cmp, p, lo, i, lp, hp, hi);
      lp := lp - 1;
      Qstexc(a, j, lp, i);
      hp := hp - 1;
      j := hp;
    }
    RoundIs(s0, a[..], cmp, p, lo, i, lp, hp, j, hi);
  }

  /** The inner loop of qs1, from j downwards: it ends at the middle part, or after an exchange with
      the element at i. */
  method FromAbove<T(!new)>(a: array<T>, cmp: Order<T>, lo: int, hi: int, i0: int, lp0: int, hp0: int, j0: int, ghost s0: seq<T>, ghost p: T)
    returns (i: int, lp: int, hp: int, j: int, swapped: bool)
    requires Preorder(cmp) && hi <= a.Length && Round(s0, a[..], cmp, p, lo, i0, lp0, hp0, j0, hi) && (i0 < lp0 ==> cmp(a[i0], p) > 0)
    modifies a
    ensures Round(s0, a[..], cmp, p, lo, i, lp, hp, j, hi)
    ensures if swapped then lp - i + j - hp < lp0 - i0 + j0 - hp0
            else j == hp && (i < lp ==> cmp(a[i], p) > 0) && lp - i + j - hp <= lp0 - i0 + j0 - hp0
  {
    i, lp, hp, j, swapped := i0, lp0, hp0, j0, false;
    while j > hp
      invariant Round(s0, a[..], cmp, p, lo, i, lp, hp, j, hi)
      invariant (i < lp ==> i == i0 && cmp(a[i], p) > 0) && lp - i + j - hp <= lp0 - i0 + j0 - hp0
      decreases j - hp
    {
      HighStep(s0, a[..], cmp, p, lo, i, lp, hp, j, hi);
      var c := cmp(a[hp], a[j]);
      if c == 0 {
        hp := hp + 1;
        Qsexc(a, hp, j);
      } else if c > 0 {
        if i == lp {
          DownStep(s0, a[..], cmp, p, lo, lp, hp, j, hi);
          hp := hp + 1;
          Qstexc(a, i, hp, j);
          lp := lp + 1;
          i := lp;
        } else {
          CrossStep(s0, a[..], cmp, p, lo, i, lp, hp, j, hi);
          Qsexc(a, i, j);
          j := j - 1;
          i := i + 1;
          swapped := true;
          return;
        }
      } else {
        j := j - 1;
      }
    }
  }

  /** qs1. No more than d calls of qs1 are nested inside this one: each nested call gets d - 1, and
      may have less than 2^d elements. */
  method Qs1<T(!new)>(a: array<T>, cmp: Order<T>, a0: int, l0: int, ghost d: nat)
    requires Preorder(cmp) && 0 <= a0 <= l0 <= a.Length && l0 - a0 < Pow2(d + 1)
    modifies a
    ensures Permuted(old(a[..]), a[..], a0, l0) && Sorted(a[..], cmp, a0, l0)
    decreases d
  {
    hide Sorted, Permuted, Preorder, Done;
    ghost var s0 := a[..];
    var lo, hi := a0, l0;
    ProgressStart(s0, cmp, a0, l0);
    while hi - lo > 1
      invariant Progress(s0, a[..], cmp, a0, lo, hi, l0)
      decreases hi - lo
    {
      ghost var s := a[..];
      var lp, hp, p := Partition(a, cmp, lo, hi);
      ghost var t := a[..];
      if lp - lo >= hi - hp {
        Qs1(a, cmp, hp + 1, hi, d - 1);
        HalfSorted(s0, s, t, a[..], cmp, p, a0, lo, lp, hp, hi, l0, hp + 1, hi);
        hi := lp;
      } else {
        Qs1(a, cmp, lo, lp, d - 1);
        HalfSorted(s0, s, t, a[..], cmp, p, a0, lo, lp, hp, hi, l0, lo, lp);
        lo := hp + 1;
      }
    }
    ProgressEnd(s0, a[..], cmp, a0, lo, hi, l0);
  }

  /** qsort: sorted, and the same elements; qs1 recurses on the smaller side only, so no more than
      log2 of the length deep. */
  method Qsort<T(!new)>(a: array<T>, n: int, cmp: Order<T>)
    requires Preorder(cmp) && 0 <= n <= a.Length
    modifies a
    ensures Sorted(a[..], cmp, 0, n) && multiset(a[..n]) == multiset(old(a[..n])) && a[n..] == old(a[n..])
  {
    ghost var s := a[..];
    Log2Is(n);
    Qs1(a, cmp, 0, n, Log2(n));
    assert s[0..n] == old(a[..n]) && a[..][0..n] == a[..n] && s[n..] == old(a[n..]) && a[..][n..] == a[n..];
  }
}
