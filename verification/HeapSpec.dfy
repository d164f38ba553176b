/** The kernel heap's free list as a sequence of blocks in the order of their addresses. */
module HeapSpec {

  datatype Block = Block(addr: int, len: int) {
    function End(): int { addr + len }
  }

  const WORD := 0x1_0000_0000

  /** roundmb, in 32 bits. */
  function Roundmb(n: int): int
    requires 0 <= n < WORD
  {
    if n + 7 < WORD then n + 7 - (n + 7) % 8 else 0
  }

  lemma RoundmbUp(n: int)
    requires 0 <= n < WORD
    ensures Roundmb(n) >= 0 && Roundmb(n) % 8 == 0 && (n <= WORD - 8 ==> n <= Roundmb(n) < n + 8 && Roundmb(n) < WORD)
    ensures n % 8 == 0 ==> Roundmb(n) == n
  {
  }

  /** Addition in 32 bits. */
  function Add32(a: int, b: int): int { if a + b < WORD then a + b else a + b - WORD }

  ghost predicate InBlock(b: Block, a: int) { b.addr <= a < b.End() }

  /** Address a is free. */
  ghost predicate Free(l: seq<Block>, a: int) {
    exists i :: 0 <= i < |l| && InBlock(l[i], a)
  }

  /** All addresses from a up to b are free. */
  ghost predicate FreeRun(l: seq<Block>, a: int, b: int) {
    forall x {:trigger Free(l, x)} :: a <= x < b ==> Free(l, x)
  }

  /** n bytes from a on are free. */
  ghost predicate Fits(l: seq<Block>, a: int, n: int) { FreeRun(l, a, a + n) }

  /** Some address from a up to b is free. */
  ghost predicate Meets(l: seq<Block>, a: int, b: int) {
    exists x :: a <= x < b && Free(l, x)
  }

  /** Block i is good by itself and lies below all later blocks, touching none of them. */
  ghost predicate BlockOk(l: seq<Block>, lo: int, i: int)
    requires 0 <= i < |l|
  {
    && lo <= l[i].addr && 0 < l[i].len && l[i].len % 8 == 0 && l[i].End() < WORD
    && forall j {:trigger l[j]} :: i < j < |l| ==> l[i].End() < l[j].addr
  }

  /** The free list: strictly in order, disjoint, and no two blocks adjacent. */
  ghost predicate Ordered(l: seq<Block>, lo: int) {
    forall i {:trigger BlockOk(l, lo, i)} :: 0 <= i < |l| ==> BlockOk(l, lo, i)
  }

  function Sum(l: seq<Block>): int {
    if l == [] then 0 else Sum(l[..|l| - 1]) + l[|l| - 1].len
  }

  // ---- the three operations on lists

  /** The first block of at least n bytes, or the length of the list. */
  function FirstFit(l: seq<Block>, n: int): (i: nat)
    ensures i <= |l| && (i < |l| ==> l[i].len >= n) && forall j :: 0 <= j < i ==> l[j].len < n
  {
    if l == [] || l[0].len >= n then 0
    else
      var r := FirstFit(l[1..], n);
      assert forall j :: 0 < j < |l| ==> l[j] == l[1..][j - 1];
      1 + r
  }

  /** The last block of at least n bytes, or -1. */
  function LastFit(l: seq<Block>, n: int): (i: int)
    ensures -1 <= i < |l| && (i >= 0 ==> l[i].len >= n) && forall j :: i < j < |l| ==> l[j].len < n
  {
    if l == [] then -1 else if l[|l| - 1].len >= n then |l| - 1
    else LastFit(l[..|l| - 1], n)
  }

  /** n bytes taken from the low end of block i. */
  function TakenLow(l: seq<Block>, i: int, n: int): seq<Block>
    requires 0 <= i < |l|
  {
    if l[i].len == n then l[..i] + l[i + 1..] else l[i := Block(l[i].addr + n, l[i].len - n)]
  }

  /** n bytes taken from the high end of block i. */
  function TakenHigh(l: seq<Block>, i: int, n: int): seq<Block>
    requires 0 <= i < |l|
  {
    if l[i].len == n then l[..i] + l[i + 1..] else l[i := Block(l[i].addr, l[i].len - n)]
  }

  /** How many blocks lie below address b. */
  function Below(l: seq<Block>, b: int): (i: nat)
    ensures i <= |l| && (i < |l| ==> l[i].addr >= b) && forall j :: 0 <= j < i ==> l[j].addr < b
  {
    if l == [] || l[0].addr >= b then 0
    else
      var r := Below(l[1..], b);
      assert forall j :: 0 < j < |l| ==> l[j] == l[1..][j - 1];
      1 + r
  }

  /** What freemem compares, in 32 bits: does the range run into the block below or the one above? */
  predicate Overlaps(l: seq<Block>, b: int, n: int) {
    var i := Below(l, b);
    (i > 0 && b < l[i - 1].End()) || (i < |l| && Add32(b, n) > l[i].addr)
  }

  /** The range added to the block that ends where it starts, or as a block of its own. */
  function Placed(l: seq<Block>, b: int, n: int): seq<Block> {
    var i := Below(l, b);
    if i > 0 && l[i - 1].End() == b then l[i - 1 := Block(l[i - 1].addr, l[i - 1].len + n)]
    else l[..i] + [Block(b, n)] + l[i..]
  }

  /** Where the range is then. */
  function PlaceOf(l: seq<Block>, b: int): (k: nat) {
    var i := Below(l, b);
    if i > 0 && l[i - 1].End() == b then i - 1 else i
  }

  /** Block k together with the next one, if that follows directly. */
  function Merged(l: seq<Block>, k: nat): seq<Block> {
    if k + 1 < |l| && l[k].End() == l[k + 1].addr then l[..k] + [Block(l[k].addr, l[k].len + l[k + 1].len)] + l[k + 2..]
    else l
  }

  function Freed(l: seq<Block>, b: int, n: int): seq<Block> { Merged(Placed(l, b, n), PlaceOf(l, b)) }

  // ---- a list is determined by what it covers

  lemma FreeAt(l: seq<Block>, i: int, a: int)
    ensures 0 <= i < |l| && InBlock(l[i], a) ==> Free(l, a)
  {
  }

  lemma BlockIsRun(l: seq<Block>, lo: int, i: int)
    requires Ordered(l, lo) && 0 <= i < |l|
    ensures FreeRun(l, l[i].addr, l[i].End()) && !Free(l, l[i].addr - 1) && !Free(l, l[i].End()) && l[i].len > 0
  {
    assert BlockOk(l, lo, i);
    forall x | l[i].addr <= x < l[i].End()
      ensures Free(l, x)
    {
      FreeAt(l, i, x);
    }
    forall j | 0 <= j < |l|
      ensures !InBlock(l[j], l[i].addr - 1) && !InBlock(l[j], l[i].End())
    {
      assert BlockOk(l, lo, j);
    }
  }

  /** A free run lies inside one block. */
  lemma RunInBlock(l: seq<Block>, lo: int, a: int, b: int) returns (i: int)
    requires Ordered(l, lo) && a < b && FreeRun(l, a, b)
    ensures 0 <= i < |l| && l[i].addr <= a && b <= l[i].End()
  {
    assert Free(l, a);
    i :| 0 <= i < |l| && InBlock(l[i], a);
    var end := l[i].End();
    BlockIsRun(l, lo, i);
    assert end < b ==> Free(l, end);
  }

  /** Two free lists that cover the same addresses are the same list. */
  lemma Canonical(l: seq<Block>, l': seq<Block>, lo: int)
    requires Ordered(l, lo) && Ordered(l', lo) && forall a :: Free(l, a) <==> Free(l', a)
    ensures l == l'
  {
    forall i | 0 <= i < |l|
      ensures l[i] in l'
    {
      SameBlock(l, l', lo, i);
    }
    forall i | 0 <= i < |l'|
      ensures l'[i] in l
    {
      SameBlock(l', l, lo, i);
    }
    SameOrder(l, l', lo);
  }

  lemma SameBlock(l: seq<Block>, l': seq<Block>, lo: int, i: int)
    requires Ordered(l, lo) && Ordered(l', lo) && (forall a :: Free(l, a) <==> Free(l', a)) && 0 <= i < |l|
    ensures l[i] in l'
  {
    BlockIsRun(l, lo, i);
    assert FreeRun(l', l[i].addr, l[i].End());
    var j := RunInBlock(l', lo, l[i].addr, l[i].End());
    FreeAt(l', j, l[i].addr - 1);
    FreeAt(l', j, l[i].End());
  }

  lemma {:induction false} SameOrder(l: seq<Block>, l': seq<Block>, lo: int)
    requires Ordered(l, lo) && Ordered(l', lo) && (forall i :: 0 <= i < |l| ==> l[i] in l') && (forall i :: 0 <= i < |l'| ==> l'[i] in l)
    ensures l == l'
  {
    assert (l != [] ==> l[0] in l') && (l' != [] ==> l'[0] in l);
    if l != [] && l' != [] {
      FirstIs(l, l', lo);
      FirstIs(l', l, lo);
      var t, t' := l[1..], l'[1..];
      TailIn(l, l', lo);
      TailIn(l', l, lo);
      SameOrder(t, t', lo);
      assert l == [l[0]] + t && l' == [l'[0]] + t';
    }
  }

  /** The first block of one list is not below that of the other. */
  lemma FirstIs(l: seq<Block>, l': seq<Block>, lo: int)
    requires Ordered(l, lo) && Ordered(l', lo) && l != [] && l' != [] && l[0] in l'
    ensures l'[0].addr <= l[0].addr && (l'[0].addr == l[0].addr ==> l'[0] == l[0])
  {
    var j :| 0 <= j < |l'| && l'[j] == l[0];
    assert BlockOk(l', lo, 0) && BlockOk(l', lo, j);
  }

  lemma TailIn(l: seq<Block>, l': seq<Block>, lo: int)
    requires Ordered(l, lo) && l != [] && l' != [] && l[0] == l'[0] && forall i :: 0 <= i < |l| ==> l[i] in l'
    ensures Ordered(l[1..], lo) && forall i :: 0 <= i < |l[1..]| ==> l[1..][i] in l'[1..]
  {
    var t := l[1..];
    assert BlockOk(l, lo, 0);
    forall i | 0 <= i < |t|
      ensures BlockOk(t, lo, i) && t[i] in l'[1..]
    {
      assert BlockOk(l, lo, i + 1) && t[i] == l[i + 1] && l[i + 1] in l';
      assert l' == [l'[0]] + l'[1..];
      forall j | i < j < |t|
        ensures t[i].End() < t[j].addr
      {
        assert t[j] == l[j + 1];
      }
    }
  }

  lemma Gap(l: seq<Block>, lo: int, x: int, y: int)
    requires Ordered(l, lo)
    ensures 0 <= x < |l| ==> l[x].len > 0 && (x < y < |l| ==> l[x].End() < l[y].addr)
  {
    assert 0 <= x < |l| ==> BlockOk(l, lo, x);
  }

  // ---- taking from a block

  lemma TakenLowOk(l: seq<Block>, lo: int, i: int, n: int)
    requires Ordered(l, lo) && 0 <= i < |l| && 0 < n <= l[i].len && n % 8 == 0
    ensures Ordered(TakenLow(l, i, n), lo)
    ensures forall a :: Free(TakenLow(l, i, n), a) <==> Free(l, a) && !(l[i].addr <= a < l[i].addr + n)
  {
    var l' := TakenLow(l, i, n);
    assert BlockOk(l, lo, i);
    forall a
      ensures Free(l', a) <==> Free(l, a) && !(l[i].addr <= a < l[i].addr + n)
    {
      Reshaped(l, l', lo, i, a);
    }
    StillOrdered(l, l', lo, i);
  }

  lemma TakenHighOk(l: seq<Block>, lo: int, i: int, n: int)
    requires Ordered(l, lo) && 0 <= i < |l| && 0 < n <= l[i].len && n % 8 == 0
    ensures Ordered(TakenHigh(l, i, n), lo)
    ensures forall a :: Free(TakenHigh(l, i, n), a) <==> Free(l, a) && !(l[i].End() - n <= a < l[i].End())
  {
    var l' := TakenHigh(l, i, n);
    assert BlockOk(l, lo, i);
    forall a
      ensures Free(l', a) <==> Free(l, a) && !(l[i].End() - n <= a < l[i].End())
    {
      Reshaped(l, l', lo, i, a);
    }
    StillOrdered(l, l', lo, i);
  }

  /** Block i is gone, or is now part of what it was. */
  ghost predicate Cuts(l: seq<Block>, l': seq<Block>, i: int) {
    && 0 <= i < |l|
    && (l' == l[..i] + l[i + 1..] || (|l'| == |l| && l' == l[i := l'[i]] && l[i].addr <= l'[i].addr && l'[i].End() <= l[i].End() && l'[i].len > 0 && l'[i].len % 8 == 0))
  }

  /** Where address a is after a cut: block i is the only one that changes. */
  lemma Reshaped(l: seq<Block>, l': seq<Block>, lo: int, i: int, a: int)
    requires Ordered(l, lo) && Cuts(l, l', i)
    ensures InBlock(l[i], a) ==> Free(l, a) && (Free(l', a) <==> |l'| == |l| && InBlock(l'[i], a))
    ensures !InBlock(l[i], a) ==> (Free(l', a) <==> Free(l, a))
  {
    assert BlockOk(l, lo, i);
    if Free(l, a) {
      var j :| 0 <= j < |l| && InBlock(l[j], a);
      assert BlockOk(l, lo, j);
      if j != i {
        FreeAt(l', if j < i || |l'| == |l| then j else j - 1, a);
      }
    }
    if Free(l', a) {
      var j :| 0 <= j < |l'| && InBlock(l'[j], a);
      var j0 := if j < i || |l'| == |l| then j else j + 1;
      assert BlockOk(l, lo, j0);
      FreeAt(l, j0, a);
    }
    if |l'| == |l| && InBlock(l'[i], a) {
      FreeAt(l', i, a);
    }
  }

  lemma StillOrdered(l: seq<Block>, l': seq<Block>, lo: int, i: int)
    requires Ordered(l, lo) && Cuts(l, l', i)
    ensures Ordered(l', lo)
  {
    forall j | 0 <= j < |l'|
      ensures BlockOk(l', lo, j)
    {
      var cut := |l'| < |l|;
      var j0 := if cut && j >= i then j + 1 else j;
      assert BlockOk(l, lo, j0);
      forall m | j < m < |l'|
        ensures l'[j].End() < l'[m].addr
      {
        assert l[j0].End() < l[if cut && m >= i then m + 1 else m].addr;
      }
    }
  }

  // ---- giving back

  /** freemem's test, for a range inside the 32-bit space: it finds exactly the ranges that meet a
      free block. */
  lemma OverlapsIff(l: seq<Block>, lo: int, b: int, n: int)
    requires Ordered(l, lo) && 0 < n && b + n < WORD
    ensures Overlaps(l, b, n) <==> Meets(l, b, b + n)
  {
    var i: int := Below(l, b);
    if Meets(l, b, b + n) {
      var x :| b <= x < b + n && Free(l, x);
      var j :| 0 <= j < |l| && InBlock(l[j], x);
      assert BlockOk(l, lo, j);
      Gap(l, lo, j, i - 1);
      Gap(l, lo, i, j);
    }
    if i > 0 && b < l[i - 1].End() {
      FreeAt(l, i - 1, b);
    } else if i < |l| && b + n > l[i].addr {
      assert BlockOk(l, lo, i);
      FreeAt(l, i, l[i].addr);
    }
  }

  /** A range that runs over the end of the 32-bit space: the sum wraps, and the test misses the
      blocks above b, though the range meets every one of them. */
  lemma OverlapsWrapped(l: seq<Block>, lo: int, b: int, n: int)
    requires Ordered(l, lo) && 0 <= b < WORD <= b + n && n <= WORD
    ensures var below := Below(l, b) > 0 && b < l[Below(l, b) - 1].End();
      (Overlaps(l, b, n) <==> below) && (Meets(l, b, b + n) <==> below || Below(l, b) < |l|)
  {
    var i: int := Below(l, b);
    if i > 0 && b < l[i - 1].End() {
      FreeAt(l, i - 1, b);
      assert Meets(l, b, b + n);
    } else if i < |l| {
      assert BlockOk(l, lo, i);
      FreeAt(l, i, l[i].addr);
      assert Meets(l, b, b + n);
    } else if Meets(l, b, b + n) {
      var x :| b <= x < b + n && Free(l, x);
      var j :| 0 <= j < |l| && InBlock(l[j], x);
      Gap(l, lo, j, i - 1);
    }
  }

  /** nbytes rounded up to a multiple of eight, without a limit. */
  function RoundUp(nbytes: int): int { nbytes + 7 - (nbytes + 7) % 8 }

  /** freemem's test finds the ranges that meet a free block, and only those, exactly if the range ends
      below 2^32, or starts in a free block, or no free block lies above its start. The sizes that
      round to 2^32, and so to zero, are among those that do not end below 2^32. */
  lemma RejectsIff(l: seq<Block>, lo: int, b: int, nbytes: int)
    requires Ordered(l, lo) && 0 < b < WORD && 0 < nbytes < WORD
    ensures var m, below := RoundUp(nbytes), Below(l, b) > 0 && b < l[Below(l, b) - 1].End();
      (Overlaps(l, b, Roundmb(nbytes)) <==> Meets(l, b, b + m)) <==> b + m < WORD || below || Below(l, b) == |l|
  {
    var m := RoundUp(nbytes);
    if b + m < WORD {
      OverlapsIff(l, lo, b, m);
    } else {
      OverlapsWrapped(l, lo, b, m);
      assert Add32(b, m) == Add32(b, Roundmb(nbytes));
    }
  }

  /** Two free blocks of eight bytes, and a range from between them that runs over the end of the
      32-bit space: it meets the second block, and is not refused. */
  lemma RejectInstance()
    ensures var l := [Block(4096, 8), Block(8192, 8)];
      Ordered(l, 4096) && Meets(l, 4200, 4200 + RoundUp(WORD - 16)) && !Overlaps(l, 4200, Roundmb(WORD - 16))
  {
    var l := [Block(4096, 8), Block(8192, 8)];
    assert BlockOk(l, 4096, 0) && BlockOk(l, 4096, 1);
    BelowIs(l, 4200, 1);
    RejectsIff(l, 4096, 4200, WORD - 16);
    OverlapsWrapped(l, 4096, 4200, RoundUp(WORD - 16));
  }

  lemma BelowIs(l: seq<Block>, b: int, i: nat)
    requires i <= |l| && (forall j :: 0 <= j < i ==> l[j].addr < b) && (i < |l| ==> l[i].addr >= b)
    ensures Below(l, b) == i
  {
  }

  /** After Placed the list is in order but for block k and the next one, which may touch. */
  ghost predicate Touching(l: seq<Block>, lo: int, k: int) {
    && 0 <= k < |l|
    && (forall i {:trigger AloneOk(l, lo, i)} :: 0 <= i < |l| ==> AloneOk(l, lo, i))
    && (forall i, j {:trigger PairOk(l, k, i, j)} :: 0 <= i < j < |l| ==> PairOk(l, k, i, j))
  }

  ghost predicate AloneOk(l: seq<Block>, lo: int, i: int)
    requires 0 <= i < |l|
  {
    lo <= l[i].addr && 0 < l[i].len && l[i].len % 8 == 0 && l[i].End() < WORD
  }

  ghost predicate PairOk(l: seq<Block>, k: int, i: int, j: int)
    requires 0 <= i < j < |l|
  {
    if i == k && j == k + 1 then l[i].End() <= l[j].addr else l[i].End() < l[j].addr
  }

  lemma PlacedOk(l: seq<Block>, lo: int, b: int, n: int)
    requires Ordered(l, lo) && lo <= b && 0 < n && n % 8 == 0 && b + n < WORD && !Overlaps(l, b, n)
    ensures Touching(Placed(l, b, n), lo, PlaceOf(l, b))
    ensures forall a :: Free(Placed(l, b, n), a) <==> Free(l, a) || b <= a < b + n
  {
    var i, l' := Below(l, b), Placed(l, b, n);
    var grown := i > 0 && l[i - 1].End() == b;
    forall x | 0 <= x < |l'|
      ensures AloneOk(l', lo, x)
    {
      if grown || x != i {
        assert BlockOk(l, lo, if grown || x < i then x else x - 1);
      }
    }
    forall a
      ensures Free(l', a) <==> Free(l, a) || b <= a < b + n
    {
      PlacedCovers(l, lo, b, n, a);
    }
    forall x, y | 0 <= x < y < |l'|
      ensures PairOk(l', PlaceOf(l, b), x, y)
    {
      PlacedOrder(l, lo, b, n, x, y);
    }
  }

  lemma PlacedCovers(l: seq<Block>, lo: int, b: int, n: int, a: int)
    requires Ordered(l, lo) && 0 < n
    ensures Free(Placed(l, b, n), a) <==> Free(l, a) || b <= a < b + n
  {
    var i, l' := Below(l, b), Placed(l, b, n);
    var grown := i > 0 && l[i - 1].End() == b;
    if Free(l', a) {
      var j :| 0 <= j < |l'| && InBlock(l'[j], a);
      if grown {
        if !(j == i - 1 && a >= b) {
          FreeAt(l, j, a);
        }
      } else if j != i {
        FreeAt(l, if j < i then j else j - 1, a);
      }
    }
    if Free(l, a) {
      var j :| 0 <= j < |l| && InBlock(l[j], a);
      FreeAt(l', if grown || j < i then j else j + 1, a);
    }
    if b <= a < b + n {
      if grown {
        assert BlockOk(l, lo, i - 1);
      }
      FreeAt(l', if grown then i - 1 else i, a);
    }
  }

  lemma PlacedOrder(l: seq<Block>, lo: int, b: int, n: int, x: int, y: int)
    requires Ordered(l, lo) && 0 < n && b + n < WORD && !Overlaps(l, b, n) && 0 <= x < y < |Placed(l, b, n)|
    ensures PairOk(Placed(l, b, n), PlaceOf(l, b), x, y)
  {
    var i: int, l' := Below(l, b), Placed(l, b, n);
    var grown := i > 0 && l[i - 1].End() == b;
    if grown {
      Gap(l, lo, x, y);
      Gap(l, lo, i - 1, i);
      Gap(l, lo, i, y);
    } else {
      Gap(l, lo, if x > i then x - 1 else x, if y > i then y - 1 else y);
      Gap(l, lo, x, i - 1);
      Gap(l, lo, i, y - 1);
    }
  }

  lemma MergedOk(l: seq<Block>, lo: int, k: nat)
    requires Touching(l, lo, k)
    ensures Ordered(Merged(l, k), lo) && forall a :: Free(Merged(l, k), a) <==> Free(l, a)
  {
    var l' := Merged(l, k);
    forall i | 0 <= i < |l'|
      ensures BlockOk(l', lo, i)
    {
      MergedBlock(l, lo, k, i);
    }
    forall a
      ensures Free(l', a) <==> Free(l, a)
    {
      MergedCovers(l, lo, k, a);
    }
  }

  lemma MergedBlock(l: seq<Block>, lo: int, k: nat, i: int)
    requires Touching(l, lo, k) && 0 <= i < |Merged(l, k)|
    ensures BlockOk(Merged(l, k), lo, i)
  {
    var l' := Merged(l, k);
    var merges := k + 1 < |l| && l[k].End() == l[k + 1].addr;
    var i0 := if merges && i > k then i + 1 else i;
    assert AloneOk(l, lo, i0) && (merges ==> AloneOk(l, lo, k + 1));
    forall j | i < j < |l'|
      ensures l'[i].End() < l'[j].addr
    {
      var j0 := if merges && j > k then j + 1 else j;
      assert l'[j].addr == l[j0].addr;
      assert PairOk(l, k, i0, j0) && (merges && i == k ==> PairOk(l, k, k + 1, j0));
    }
  }

  lemma MergedCovers(l: seq<Block>, lo: int, k: nat, a: int)
    requires Touching(l, lo, k)
    ensures Free(Merged(l, k), a) <==> Free(l, a)
  {
    var l' := Merged(l, k);
    var merges := k + 1 < |l| && l[k].End() == l[k + 1].addr;
    assert AloneOk(l, lo, k) && (k + 1 < |l| ==> AloneOk(l, lo, k + 1));
    if Free(l', a) {
      var j :| 0 <= j < |l'| && InBlock(l'[j], a);
      FreeAt(l, if merges && (j > k || (j == k && a >= l[k].End())) then j + 1 else j, a);
    }
    if Free(l, a) {
      var j :| 0 <= j < |l| && InBlock(l[j], a);
      FreeAt(l', if merges && j > k then j - 1 else j, a);
    }
  }

  /** freemem, when it accepts the range: the list is a free list again, and the range is free and
      nothing else. */
  lemma FreedOk(l: seq<Block>, lo: int, b: int, n: int)
    requires Ordered(l, lo) && lo <= b && 0 < n && n % 8 == 0 && b + n < WORD && !Overlaps(l, b, n)
    ensures Ordered(Freed(l, b, n), lo)
    ensures forall a :: Free(Freed(l, b, n), a) <==> Free(l, a) || b <= a < b + n
  {
    PlacedOk(l, lo, b, n);
    MergedOk(Placed(l, b, n), lo, PlaceOf(l, b));
  }

  // ---- what the allocators promise

  /** getmem's block is the lowest place where n bytes are free; there is none only if no free run
      is long enough. */
  lemma LowestFit(l: seq<Block>, lo: int, n: int)
    requires Ordered(l, lo) && 0 < n
    ensures var i := FirstFit(l, n);
      && (i < |l| ==> Fits(l, l[i].addr, n))
      && forall a {:trigger Fits(l, a, n)} :: Fits(l, a, n) ==> i < |l| && l[i].addr <= a
  {
    var i := FirstFit(l, n);
    if i < |l| {
      BlockIsRun(l, lo, i);
    }
    forall a | Fits(l, a, n)
      ensures i < |l| && l[i].addr <= a
    {
      var j := RunInBlock(l, lo, a, a + n);
      Gap(l, lo, i, j);
    }
  }

  /** getstk's is the highest. */
  lemma HighestFit(l: seq<Block>, lo: int, n: int)
    requires Ordered(l, lo) && 0 < n
    ensures var i := LastFit(l, n);
      && (i >= 0 ==> Fits(l, l[i].End() - n, n))
      && forall a {:trigger Fits(l, a, n)} :: Fits(l, a, n) ==> i >= 0 && a + n <= l[i].End()
  {
    var i := LastFit(l, n);
    if i >= 0 {
      BlockIsRun(l, lo, i);
    }
    forall a | Fits(l, a, n)
      ensures i >= 0 && a + n <= l[i].End()
    {
      var j := RunInBlock(l, lo, a, a + n);
      Gap(l, lo, j, i);
    }
  }

  /** A request within seven bytes of 2^32 is rounded to nothing: getmem then names the first free
      block and takes nothing from it. */
  lemma HugeRequest(l: seq<Block>, nbytes: int)
    requires 0 < nbytes < WORD && l != [] && l[0].len > 0
    ensures Roundmb(nbytes) == 0 <==> nbytes > WORD - 8
    ensures nbytes > WORD - 8 ==> FirstFit(l, Roundmb(nbytes)) == 0 && TakenLow(l, 0, 0) == l
  {
    RoundmbUp(nbytes);
  }

  /** Giving back exactly what was taken restores the list, wherever it was taken. */
  lemma Restores(l: seq<Block>, l1: seq<Block>, lo: int, b: int, n: int)
    requires Ordered(l, lo) && Ordered(l1, lo) && lo <= b && 0 < n && n % 8 == 0 && b + n < WORD && Fits(l, b, n)
    requires forall a :: Free(l1, a) <==> Free(l, a) && !(b <= a < b + n)
    ensures !Overlaps(l1, b, n) && Freed(l1, b, n) == l
  {
    OverlapsIff(l1, lo, b, n);
    FreedOk(l1, lo, b, n);
    Canonical(Freed(l1, b, n), l, lo);
  }

  /** freemem(getmem(n), n) restores the list. */
  lemma GetThenFree(l: seq<Block>, lo: int, nbytes: int)
    requires Ordered(l, lo) && 0 < nbytes <= WORD - 8 && FirstFit(l, Roundmb(nbytes)) < |l|
    ensures var n, i := Roundmb(nbytes), FirstFit(l, Roundmb(nbytes));
      var p, l1 := l[i].addr, TakenLow(l, i, n);
      lo <= p && p + n < WORD && !Overlaps(l1, p, n) && Freed(l1, p, n) == l
  {
    var n, i := Roundmb(nbytes), FirstFit(l, Roundmb(nbytes));
    RoundmbUp(nbytes);
    TakenLowOk(l, lo, i, n);
    LowestFit(l, lo, n);
    assert BlockOk(l, lo, i);
    Restores(l, TakenLow(l, i, n), lo, l[i].addr, n);
  }

  lemma BlockAt(l: seq<Block>, lo: int, i: int)
    requires Ordered(l, lo) && 0 <= i < |l|
    ensures lo <= l[i].addr && l[i].End() < WORD
  {
    assert BlockOk(l, lo, i);
  }

  /** freestk(getstk(n), n) restores the list: p is what getstk returns, and b what freestk makes of
      it; the length is rounded again there, which changes nothing. */
  lemma StackThenFree(l: seq<Block>, lo: int, nbytes: int)
    requires Ordered(l, lo) && 0 < nbytes <= WORD - 8 && LastFit(l, Roundmb(nbytes)) >= 0
    ensures var n, i := Roundmb(nbytes), LastFit(l, Roundmb(nbytes));
      var p, l1 := l[i].End() - 4, TakenHigh(l, i, n);
      var b := p - n + 4;
      n < WORD && Roundmb(n) == n && lo <= b && b + n < WORD && !Overlaps(l1, b, n) && Freed(l1, b, n) == l
  {
    hide Roundmb, Overlaps, Freed, TakenHigh, Ordered, Fits, LastFit;
    var n, i := Roundmb(nbytes), LastFit(l, Roundmb(nbytes));
    RoundmbUp(nbytes);
    RoundmbUp(n);
    TakenHighOk(l, lo, i, n);
    HighestFit(l, lo, n);
    BlockAt(l, lo, i);
    Restores(l, TakenHigh(l, i, n), lo, l[i].End() - n, n);
    assert l[i].End() - 4 - n + 4 == l[i].End() - n;
  }

  // ---- the sum of the lengths

  lemma {:induction false} SumConcat(l: seq<Block>, m: seq<Block>)
    ensures Sum(l + m) == Sum(l) + Sum(m)
  {
    if m == [] {
      assert l + m == l;
    } else {
      SumConcat(l, m[..|m| - 1]);
      assert (l + m)[..|l + m| - 1] == l + m[..|m| - 1];
    }
  }

  /** Blocks i up to j replaced. */
  lemma SumSplice(l: seq<Block>, i: int, j: int, mid: seq<Block>)
    requires 0 <= i <= j <= |l|
    ensures Sum(l[..i] + mid + l[j..]) == Sum(l) - Sum(l[i..j]) + Sum(mid)
  {
    SumConcat(l[..i] + mid, l[j..]);
    SumConcat(l[..i], mid);
    SumConcat(l[..i] + l[i..j], l[j..]);
    SumConcat(l[..i], l[i..j]);
    assert l == l[..i] + l[i..j] + l[j..];
  }

  lemma SumOne(b: Block)
    ensures Sum([b]) == b.len
  {
    assert [b][..0] == [];
  }

  lemma SumTaken(l: seq<Block>, i: int, n: int)
    requires 0 <= i < |l|
    ensures Sum(TakenLow(l, i, n)) == Sum(l) - n && Sum(TakenHigh(l, i, n)) == Sum(l) - n
  {
    assert l[i..i + 1] == [l[i]];
    SumOne(l[i]);
    SumSplice(l, i, i + 1, []);
    assert l[..i] + [] + l[i + 1..] == l[..i] + l[i + 1..];
    SumSet(l, i, Block(l[i].addr + n, l[i].len - n));
    SumSet(l, i, Block(l[i].addr, l[i].len - n));
  }

  lemma SumSet(l: seq<Block>, i: int, b: Block)
    requires 0 <= i < |l|
    ensures Sum(l[i := b]) == Sum(l) - l[i].len + b.len
  {
    assert l[i..i + 1] == [l[i]];
    SumOne(l[i]);
    SumOne(b);
    SumSplice(l, i, i + 1, [b]);
    assert l[..i] + [b] + l[i + 1..] == l[i := b];
  }

  lemma SumPlaced(l: seq<Block>, b: int, n: int)
    ensures Sum(Placed(l, b, n)) == Sum(l) + n
  {
    var i := Below(l, b);
    if i > 0 && l[i - 1].End() == b {
      SumSet(l, i - 1, Block(l[i - 1].addr, l[i - 1].len + n));
    } else {
      SumOne(Block(b, n));
      SumSplice(l, i, i, [Block(b, n)]);
      assert l[i..i] == [];
    }
  }

  lemma SumMerged(l: seq<Block>, k: nat)
    ensures Sum(Merged(l, k)) == Sum(l)
  {
    if k + 1 < |l| && l[k].End() == l[k + 1].addr {
      var c := Block(l[k].addr, l[k].len + l[k + 1].len);
      SumOne(l[k]);
      SumOne(l[k + 1]);
      SumOne(c);
      SumConcat([l[k]], [l[k + 1]]);
      assert l[k..k + 2] == [l[k]] + [l[k + 1]];
      SumSplice(l, k, k + 2, [c]);
    }
  }

  lemma SumFreed(l: seq<Block>, b: int, n: int)
    ensures Sum(Freed(l, b, n)) == Sum(l) + n
  {
    SumPlaced(l, b, n);
    SumMerged(Placed(l, b, n), PlaceOf(l, b));
  }

  /** The blocks fit below the last one's end, so their sum fits in 32 bits. */
  lemma {:induction false} SumBounded(l: seq<Block>, lo: int)
    requires Ordered(l, lo)
    ensures 0 <= Sum(l) && (l != [] ==> Sum(l) <= l[|l| - 1].End() - lo)
  {
    if l != [] {
      var m := |l| - 1;
      var t := l[..m];
      forall i | 0 <= i < m
        ensures BlockOk(t, lo, i)
      {
        assert BlockOk(l, lo, i);
      }
      SumBounded(t, lo);
      assert BlockOk(l, lo, m);
      Gap(l, lo, m - 1, m);
    }
  }
}
