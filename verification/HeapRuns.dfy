/** Runs of the kernel heap: what is free and what is handed out always make up the whole heap. */
module HeapRuns {
  import opened HeapSpec
  import KernelHeap

  /** The free list, and the blocks handed out and not yet given back. */
  datatype State = State(free: seq<Block>, live: seq<Block>)

  datatype Event = Get(nbytes: int) | Stack(nbytes: int) | Return(i: int)

  function WithoutAt(l: seq<Block>, i: int): seq<Block>
    requires 0 <= i < |l|
  {
    l[..i] + l[i + 1..]
  }

  predicate Enabled(h: State, e: Event) {
    match e
    case Get(nbytes) => 0 <= nbytes <= WORD - 8
    case Stack(nbytes) => 0 <= nbytes <= WORD - 8
    case Return(i) => 0 <= i < |h.live|
  }

  function Step(h: State, e: Event): State
    requires Enabled(h, e)
  {
    match e
    case Get(nbytes) =>
      var n := Roundmb(nbytes);
      var i := FirstFit(h.free, n);
      if nbytes == 0 || i == |h.free| then h
      else State(TakenLow(h.free, i, n), h.live + [Block(h.free[i].addr, n)])
    case Stack(nbytes) =>
      var n := Roundmb(nbytes);
      var i := LastFit(h.free, n);
      if nbytes == 0 || i == -1 then h
      else State(TakenHigh(h.free, i, n), h.live + [Block(h.free[i].End() - n, n)])
    case Return(i) => State(Freed(h.free, h.live[i].addr, h.live[i].len), WithoutAt(h.live, i))
  }

  ghost predicate LiveOk(l: seq<Block>, lo: int, hi: int, i: int)
    requires 0 <= i < |l|
  {
    && lo <= l[i].addr && 0 < l[i].len && l[i].len % 8 == 0 && l[i].End() <= hi
    && forall j {:trigger l[j]} :: 0 <= j < |l| && j != i ==> l[i].End() <= l[j].addr || l[j].End() <= l[i].addr
  }

  /** Every byte of the heap is in a free block or in exactly one that is handed out, and not in both. */
  ghost predicate Partition(h: State, lo: int, hi: int) {
    && 0 < lo && hi < WORD && Ordered(h.free, lo)
    && (forall i {:trigger LiveOk(h.live, lo, hi, i)} :: 0 <= i < |h.live| ==> LiveOk(h.live, lo, hi, i))
    && (forall a {:trigger Free(h.free, a)} {:trigger Free(h.live, a)} :: Free(h.free, a) <==> lo <= a < hi && !Free(h.live, a))
    && Sum(h.free) + Sum(h.live) == hi - lo
  }

  /** A free block handed out. */
  lemma Handed(h: State, lo: int, hi: int, free': seq<Block>, b: int, n: int)
    requires Partition(h, lo, hi) && 0 < n && n % 8 == 0 && Fits(h.free, b, n) && Ordered(free', lo)
    requires (forall a :: Free(free', a) <==> Free(h.free, a) && !(b <= a < b + n)) && Sum(free') == Sum(h.free) - n
    ensures Partition(State(free', h.live + [Block(b, n)]), lo, hi)
  {
    var live' := h.live + [Block(b, n)];
    assert live'[|h.live|] == Block(b, n);
    SumConcat(h.live, [Block(b, n)]);
    SumOne(Block(b, n));
    assert Free(h.free, b) && Free(h.free, b + n - 1);
    forall j | 0 <= j < |h.live|
      ensures h.live[j].End() <= b || b + n <= h.live[j].addr
    {
      assert LiveOk(h.live, lo, hi, j);
      FreeAt(h.live, j, b);
      var x := h.live[j].addr;
      FreeAt(h.live, j, x);
      assert b <= x < b + n ==> Free(h.free, x);
    }
    forall i | 0 <= i < |live'|
      ensures LiveOk(live', lo, hi, i)
    {
      if i < |h.live| {
        assert LiveOk(h.live, lo, hi, i);
      }
    }
    forall a
      ensures Free(live', a) <==> Free(h.live, a) || b <= a < b + n
    {
      FreeAt(live', |h.live|, a);
      if Free(h.live, a) {
        var j :| 0 <= j < |h.live| && InBlock(h.live[j], a);
        FreeAt(live', j, a);
      }
    }
    assert forall a :: b <= a < b + n ==> Free(h.free, a);
  }

  /** A block that is handed out meets no free block, so freemem accepts it; afterwards it is free,
      so freemem would reject it a second time. */
  lemma ReturnOnce(h: State, lo: int, hi: int, i: int)
    requires Partition(h, lo, hi) && 0 <= i < |h.live|
    ensures var b := h.live[i];
      lo <= b.addr <= hi && !Overlaps(h.free, b.addr, b.len) && Overlaps(Freed(h.free, b.addr, b.len), b.addr, b.len)
  {
    var b := h.live[i];
    assert LiveOk(h.live, lo, hi, i);
    forall a | b.addr <= a < b.End()
      ensures !Free(h.free, a)
    {
      FreeAt(h.live, i, a);
    }
    OverlapsIff(h.free, lo, b.addr, b.len);
    FreedOk(h.free, lo, b.addr, b.len);
    OverlapsIff(Freed(h.free, b.addr, b.len), lo, b.addr, b.len);
    assert Free(Freed(h.free, b.addr, b.len), b.addr);
  }

  lemma ReturnKeeps(h: State, lo: int, hi: int, i: int)
    requires Partition(h, lo, hi) && 0 <= i < |h.live|
    ensures Partition(Step(h, Return(i)), lo, hi)
  {
    var b, live', free' := h.live[i], WithoutAt(h.live, i), Freed(h.free, h.live[i].addr, h.live[i].len);
    assert LiveOk(h.live, lo, hi, i);
    ReturnOnce(h, lo, hi, i);
    FreedOk(h.free, lo, b.addr, b.len);
    SumFreed(h.free, b.addr, b.len);
    SumLess(h.live, i);
    LiveStays(h, lo, hi, i);
    forall a
      ensures Free(free', a) <==> lo <= a < hi && !Free(live', a)
    {
      LiveLess(h, lo, hi, i, a);
      FreeAt(h.live, i, a);
      assert Free(h.free, a) <==> lo <= a < hi && !Free(h.live, a);
    }
  }

  lemma SumLess(l: seq<Block>, i: int)
    requires 0 <= i < |l|
    ensures Sum(WithoutAt(l, i)) == Sum(l) - l[i].len
  {
    assert l[i..i + 1] == [l[i]];
    SumOne(l[i]);
    SumSplice(l, i, i + 1, []);
    assert l[..i] + [] + l[i + 1..] == WithoutAt(l, i);
  }

  lemma LiveStays(h: State, lo: int, hi: int, i: int)
    requires Partition(h, lo, hi) && 0 <= i < |h.live|
    ensures var l := WithoutAt(h.live, i); forall j {:trigger LiveOk(l, lo, hi, j)} :: 0 <= j < |l| ==> LiveOk(l, lo, hi, j)
  {
    var l := WithoutAt(h.live, i);
    forall j | 0 <= j < |l|
      ensures LiveOk(l, lo, hi, j)
    {
      var j0 := if j < i then j else j + 1;
      assert LiveOk(h.live, lo, hi, j0) && l[j] == h.live[j0];
      forall k | 0 <= k < |l| && k != j
        ensures l[j].End() <= l[k].addr || l[k].End() <= l[j].addr
      {
        assert l[k] == h.live[if k < i then k else k + 1];
      }
    }
  }

  lemma LiveLess(h: State, lo: int, hi: int, i: int, a: int)
    requires Partition(h, lo, hi) && 0 <= i < |h.live|
    ensures Free(WithoutAt(h.live, i), a) <==> Free(h.live, a) && !InBlock(h.live[i], a)
  {
    var live' := WithoutAt(h.live, i);
    assert LiveOk(h.live, lo, hi, i);
    if Free(live', a) {
      var j :| 0 <= j < |live'| && InBlock(live'[j], a);
      FreeAt(h.live, if j < i then j else j + 1, a);
      assert live'[j] == h.live[if j < i then j else j + 1];
    }
    if Free(h.live, a) && !InBlock(h.live[i], a) {
      var j :| 0 <= j < |h.live| && InBlock(h.live[j], a);
      FreeAt(live', if j < i then j else j - 1, a);
    }
  }

  lemma StepKeeps(h: State, e: Event, lo: int, hi: int)
    requires Partition(h, lo, hi) && Enabled(h, e)
    ensures Partition(Step(h, e), lo, hi)
  {
    match e
    case Get(nbytes) =>
      var n := Roundmb(nbytes);
      RoundmbUp(nbytes);
      var i := FirstFit(h.free, n);
      if nbytes != 0 && i < |h.free| {
        LowestFit(h.free, lo, n);
        TakenLowOk(h.free, lo, i, n);
        SumTaken(h.free, i, n);
        Handed(h, lo, hi, TakenLow(h.free, i, n), h.free[i].addr, n);
      }
    case Stack(nbytes) =>
      var n := Roundmb(nbytes);
      RoundmbUp(nbytes);
      var i := LastFit(h.free, n);
      if nbytes != 0 && i >= 0 {
        HighestFit(h.free, lo, n);
        TakenHighOk(h.free, lo, i, n);
        SumTaken(h.free, i, n);
        Handed(h, lo, hi, TakenHigh(h.free, i, n), h.free[i].End() - n, n);
      }
    case Return(i) => ReturnKeeps(h, lo, hi, i);
  }

  // ---- runs

  predicate Legal(h: State, es: seq<Event>)
    decreases |es|
  {
    es == [] || (Enabled(h, es[0]) && Legal(Step(h, es[0]), es[1..]))
  }

  function Run(h: State, es: seq<Event>): State
    requires Legal(h, es)
    decreases |es|
  {
    if es == [] then h else Run(Step(h, es[0]), es[1..])
  }

  /** After meminit. */
  lemma InitOk(lo: int, hi: int)
    requires 0 < lo < hi < WORD && (hi - lo) % 8 == 0
    ensures Partition(State([Block(lo, hi - lo)], []), lo, hi)
  {
    var l := [Block(lo, hi - lo)];
    SumOne(l[0]);
    assert BlockOk(l, lo, 0);
    forall a
      ensures Free(l, a) <==> lo <= a < hi
    {
      FreeAt(l, 0, a);
    }
  }

  lemma {:induction false} RunKeeps(h: State, es: seq<Event>, lo: int, hi: int)
    requires Partition(h, lo, hi) && Legal(h, es)
    ensures Partition(Run(h, es), lo, hi)
    decreases |es|
  {
    if es != [] {
      StepKeeps(h, es[0], lo, hi);
      RunKeeps(Step(h, es[0]), es[1..], lo, hi);
    }
  }

  /** Once everything is given back, in whatever order, the heap is one block again. */
  lemma AllReturned(es: seq<Event>, lo: int, hi: int)
    requires 0 < lo < hi < WORD && (hi - lo) % 8 == 0
    requires Legal(State([Block(lo, hi - lo)], []), es) && Run(State([Block(lo, hi - lo)], []), es).live == []
    ensures Run(State([Block(lo, hi - lo)], []), es).free == [Block(lo, hi - lo)]
  {
    var h0 := State([Block(lo, hi - lo)], []);
    InitOk(lo, hi);
    RunKeeps(h0, es, lo, hi);
    Canonical(Run(h0, es).free, h0.free, lo);
  }

  /** The free list stays inside the heap exactly when what is given back ends inside it: freemem
      itself looks only at where a block starts. */
  lemma StaysInside(l: seq<Block>, lo: int, hi: int, b: int, n: int)
    requires Ordered(l, lo) && lo <= b <= hi && 0 < n && n % 8 == 0 && b + n < WORD && !Overlaps(l, b, n)
    requires forall a :: Free(l, a) ==> a < hi
    ensures (forall a :: Free(Freed(l, b, n), a) ==> a < hi) <==> b + n <= hi
  {
    FreedOk(l, lo, b, n);
    assert Free(Freed(l, b, n), b + n - 1);
  }

  /** A heap of 64 bytes with nothing free: freemem accepts 128 bytes from its start, and the free list
      reaches beyond the heap. */
  lemma OutsideInstance()
    ensures Ordered([], 4096) && !Overlaps([], 4096, 128) && Freed([], 4096, 128) == [Block(4096, 128)]
    ensures Free(Freed([], 4096, 128), 4096 + 64)
  {
    FreeAt([Block(4096, 128)], 0, 4096 + 64);
  }

  /** The heap goes through the states of the run. */
  method Perform(h: KernelHeap.Heap, es: seq<Event>) returns (live: seq<Block>)
    requires h.Valid() && Partition(State(h.blocks, []), h.minheap, h.maxheap) && Legal(State(h.blocks, []), es)
    modifies h
    ensures h.Valid() && State(h.blocks, live) == Run(State(old(h.blocks), []), es)
  {
    live := [];
    var i := 0;
    assert es[0..] == es;
    while i < |es|
      invariant 0 <= i <= |es| && h.Valid() && Partition(State(h.blocks, live), h.minheap, h.maxheap) && Legal(State(h.blocks, live), es[i..])
      invariant Run(State(h.blocks, live), es[i..]) == Run(State(old(h.blocks), []), es)
    {
      assert es[i..][0] == es[i] && es[i..][1..] == es[i + 1..];
      live := Do(h, live, es[i]);
      i := i + 1;
    }
  }

  method Do(h: KernelHeap.Heap, live: seq<Block>, e: Event) returns (live': seq<Block>)
    requires h.Valid() && Partition(State(h.blocks, live), h.minheap, h.maxheap) && Enabled(State(h.blocks, live), e)
    modifies h
    ensures h.Valid() && State(h.blocks, live') == Step(State(old(h.blocks), live), e) && Partition(State(h.blocks, live'), h.minheap, h.maxheap)
  {
    StepKeeps(State(h.blocks, live), e, h.minheap, h.maxheap);
    match e
    case Get(nbytes) =>
      Positive(h.blocks, h.minheap, FirstFit(h.blocks, Roundmb(nbytes)));
      var p := h.Getmem(nbytes);
      live' := if p == KernelHeap.SYSERR then live else live + [Block(p, Roundmb(nbytes))];
    case Stack(nbytes) =>
      Positive(h.blocks, h.minheap, LastFit(h.blocks, Roundmb(nbytes)));
      var p := h.Getstk(nbytes);
      live' := if p == KernelHeap.SYSERR then live else live + [Block(p + 4 - Roundmb(nbytes), Roundmb(nbytes))];
    case Return(i) =>
      ReturnOnce(State(h.blocks, live), h.minheap, h.maxheap, i);
      assert LiveOk(live, h.minheap, h.maxheap, i);
      RoundmbUp(live[i].len);
      var ok := h.Freemem(live[i].addr, live[i].len);
      live' := WithoutAt(live, i);
  }

  /** No allocator's result looks like an error. */
  lemma Positive(l: seq<Block>, lo: int, i: int)
    requires Ordered(l, lo) && 0 < lo
    ensures 0 <= i < |l| ==> l[i].addr > 0 && l[i].End() >= 8
  {
    if 0 <= i < |l| {
      assert BlockOk(l, lo, i);
    }
  }
}
