/** Lists whose members are all different, and taking one out. */
module DistinctLists {

  ghost predicate Distinct(l: seq<int>) {
    forall j, k :: 0 <= j < |l| && 0 <= k < |l| && j != k ==> l[j] != l[k]
  }

  function Without(l: seq<int>, x: int): seq<int> {
    if l == [] then [] else if l[0] == x then l[1..] else [l[0]] + Without(l[1..], x)
  }

  lemma {:induction false} WithoutIs(l: seq<int>, x: int)
    requires Distinct(l)
    ensures forall y :: y in Without(l, x) <==> y in l && y != x
    ensures Distinct(Without(l, x))
    ensures |Without(l, x)| == |l| - if x in l then 1 else 0
  {
    if l != [] {
      var t := l[1..];
      assert l == [l[0]] + t;
      WithoutIs(t, x);
      assert l[0] !in t && l[0] !in Without(t, x);
    }
  }
}
