/** The kernel heap in memory: every free block holds the address of the next one and its length. */
module KernelHeap {
  import opened HeapSpec

  datatype Memblk = Memblk(next: int, length: int)

  const NULL := 0
  const SYSERR := -1
  const OK := 1
  /** The list head, memlist, where a block's address is expected. */
  const HEAD := -1

  // ---- the list in memory

  function AddrAt(l: seq<Block>, i: int): int { if 0 <= i < |l| then l[i].addr else NULL }

  /** What comes before block i. */
  function PrevAt(l: seq<Block>, i: int): int { if 0 < i <= |l| then l[i - 1].addr else HEAD }

  ghost predicate Node(mem: map<int, Memblk>, l: seq<Block>, i: int)
    requires 0 <= i < |l|
  {
    l[i].addr in mem && mem[l[i].addr] == Memblk(AddrAt(l, i + 1), l[i].len)
  }

  /** The blocks of l, linked in this order. */
  ghost predicate Listed(mem: map<int, Memblk>, first: int, l: seq<Block>) {
    first == AddrAt(l, 0) && forall i {:trigger Node(mem, l, i)} :: 0 <= i < |l| ==> Node(mem, l, i)
  }

  ghost predicate Ascending(l: seq<Block>) {
    forall i, j :: 0 <= i < j < |l| ==> l[i].addr < l[j].addr
  }

  lemma OrderedAscends(l: seq<Block>, lo: int)
    requires Ordered(l, lo)
    ensures Ascending(l) && forall i :: 0 <= i < |l| ==> lo <= l[i].addr && l[i].len > 0 && l[i].End() < WORD
  {
    forall i | 0 <= i < |l|
      ensures lo <= l[i].addr && l[i].len > 0 && l[i].End() < WORD
    {
      assert BlockOk(l, lo, i);
    }
    forall i, j | 0 <= i < j < |l|
      ensures l[i].addr < l[j].addr
    {
      Gap(l, lo, i, j);
    }
  }

  /** The list head's, or block prev's, next changed to x. */
  function Linked(mem: map<int, Memblk>, first: int, prev: int, x: int): (map<int, Memblk>, int)
    requires prev == HEAD || prev in mem
  {
    if prev == HEAD then (mem, x) else (mem[prev := mem[prev].(next := x)], first)
  }

  lemma PrevIn(mem: map<int, Memblk>, first: int, l: seq<Block>, i: int)
    requires Listed(mem, first, l) && 0 <= i <= |l|
    ensures PrevAt(l, i) == HEAD || PrevAt(l, i) in mem
    ensures i < |l| ==> l[i].addr in mem && mem[l[i].addr] == Memblk(AddrAt(l, i + 1), l[i].len)
  {
    assert i > 0 ==> Node(mem, l, i - 1);
    assert i < |l| ==> Node(mem, l, i);
  }

  /** Block i unlinked. */
  lemma Unlinks(mem: map<int, Memblk>, first: int, l: seq<Block>, lo: int, i: int)
    requires Listed(mem, first, l) && Ordered(l, lo) && 0 < lo && 0 <= i < |l|
    ensures PrevAt(l, i) == HEAD || PrevAt(l, i) in mem
    ensures var (m, f) := Linked(mem, first, PrevAt(l, i), AddrAt(l, i + 1)); Listed(m, f, l[..i] + l[i + 1..])
  {
    OrderedAscends(l, lo);
    PrevIn(mem, first, l, i);
    var l' := l[..i] + l[i + 1..];
    var (m, f) := Linked(mem, first, PrevAt(l, i), AddrAt(l, i + 1));
    forall j | 0 <= j < |l'|
      ensures Node(m, l', j)
    {
      assert Node(mem, l, if j < i then j else j + 1);
    }
  }

  /** A block b linked in between block i - 1 and block j. */
  lemma LinksIn(mem: map<int, Memblk>, first: int, l: seq<Block>, i: int, j: int, b: Block)
    requires Listed(mem, first, l) && Ascending(l) && 0 <= i <= j <= |l| && j <= i + 1 && (forall k :: 0 <= k < |l| ==> l[k].addr != HEAD)
    requires Ascending(l[..i] + [b] + l[j..]) && b.addr != HEAD
    ensures PrevAt(l, i) == HEAD || PrevAt(l, i) in mem
    ensures var l', (m, f) := l[..i] + [b] + l[j..], Linked(mem, first, PrevAt(l, i), b.addr);
      Listed(m[b.addr := Memblk(AddrAt(l, j), b.len)], f, l')
  {
    PrevIn(mem, first, l, i);
    var l' := l[..i] + [b] + l[j..];
    var (m, f) := Linked(mem, first, PrevAt(l, i), b.addr);
    var m' := m[b.addr := Memblk(AddrAt(l, j), b.len)];
    forall k | 0 <= k < |l'|
      ensures Node(m', l', k)
    {
      LinkedNode(mem, first, l, i, j, b, k);
    }
    assert AddrAt(l', 0) == if i == 0 then b.addr else l[0].addr;
  }

  lemma LinkedNode(mem: map<int, Memblk>, first: int, l: seq<Block>, i: int, j: int, b: Block, k: int)
    requires Listed(mem, first, l) && Ascending(l) && 0 <= i <= j <= |l| && j <= i + 1 && (forall k :: 0 <= k < |l| ==> l[k].addr != HEAD)
    requires Ascending(l[..i] + [b] + l[j..]) && b.addr != HEAD && 0 <= k < |l[..i] + [b] + l[j..]|
    requires PrevAt(l, i) == HEAD || PrevAt(l, i) in mem
    ensures Node(Linked(mem, first, PrevAt(l, i), b.addr).0[b.addr := Memblk(AddrAt(l, j), b.len)], l[..i] + [b] + l[j..], k)
  {
    var l' := l[..i] + [b] + l[j..];
    assert l'[i] == b;
    if k < i {
      assert Node(mem, l, k);
      assert l'[k] == l[k] && l'[k].addr < l'[i].addr;
      assert AddrAt(l', k + 1) == if k + 1 == i then b.addr else l[k + 1].addr;
      assert k < i - 1 ==> l[k].addr < l[i - 1].addr;
    } else if k == i {
      assert AddrAt(l', k + 1) == AddrAt(l, j) by {
        assert j < |l| ==> l'[k + 1] == l[j];
      }
    } else {
      var c := k - i - 1 + j;
      assert Node(mem, l, c);
      assert l'[k] == l[c] && l'[i].addr < l'[k].addr;
      assert AddrAt(l', k + 1) == AddrAt(l, c + 1) by {
        assert c + 1 < |l| ==> l'[k + 1] == l[c + 1];
      }
      assert i > 0 ==> l[i - 1].addr < l[c].addr;
    }
  }

  /** Block k takes over the blocks up to j. */
  lemma Absorbs(mem: map<int, Memblk>, first: int, l: seq<Block>, k: int, j: int, len: int)
    requires Listed(mem, first, l) && Ascending(l) && 0 <= k < j <= |l|
    ensures Listed(mem[l[k].addr := Memblk(AddrAt(l, j), len)], first, l[..k] + [Block(l[k].addr, len)] + l[j..])
  {
    var l', m := l[..k] + [Block(l[k].addr, len)] + l[j..], mem[l[k].addr := Memblk(AddrAt(l, j), len)];
    forall i | 0 <= i < |l'|
      ensures Node(m, l', i)
    {
      if i != k {
        assert Node(mem, l, if i < k then i else i - k - 1 + j);
      }
    }
  }

  class Heap {
    const minheap: int
    const maxheap: int
    /** What the kernel has stored in free blocks, by address. */
    var mem: map<int, Memblk>
    /** memlist.mnext and memlist.mlength. */
    var first: int
    var total: int
    ghost var blocks: seq<Block>

    ghost predicate Valid()
      reads this
    {
      0 < minheap <= maxheap < WORD && Ordered(blocks, minheap) && Listed(mem, first, blocks) && total == Sum(blocks)
    }

    /** meminit: one free block, from the end of the kernel to the end of the heap. */
    constructor (lo: int, hi: int)
      requires 0 < lo < hi < WORD && (hi - lo) % 8 == 0
      ensures Valid() && minheap == lo && maxheap == hi && blocks == [Block(lo, hi - lo)]
    {
      minheap, maxheap := lo, hi;
      first, total := lo, hi - lo;
      mem := map[lo := Memblk(NULL, hi - lo)];
      blocks := [Block(lo, hi - lo)];
      new;
      SumOne(Block(lo, hi - lo));
      assert Node(mem, blocks, 0) && BlockOk(blocks, lo, 0);
    }

    method SetNext(prev: int, x: int)
      requires prev == HEAD || prev in mem
      modifies this`mem, this`first
      ensures (mem, first) == Linked(old(mem), old(first), prev, x)
    {
      if prev == HEAD {
        first := x;
      } else {
        mem := mem[prev := mem[prev].(next := x)];
      }
    }

    /** The first free block of at least n bytes, and what comes before it. */
    method FindFirst(n: int) returns (prev: int, curr: int)
      requires Valid()
      ensures var i := FirstFit(blocks, n); curr == AddrAt(blocks, i) && prev == PrevAt(blocks, i) && (curr == NULL <==> i == |blocks|)
    {
      OrderedAscends(blocks, minheap);
      ghost var i := 0;
      prev, curr := HEAD, first;
      PrevIn(mem, first, blocks, 0);
      while curr != NULL && mem[curr].length < n
        invariant 0 <= i <= |blocks| && curr == AddrAt(blocks, i) && prev == PrevAt(blocks, i)
        invariant curr != NULL ==> curr in mem && mem[curr] == Memblk(AddrAt(blocks, i + 1), blocks[i].len)
        invariant forall j :: 0 <= j < i ==> blocks[j].len < n
        decreases |blocks| - i
      {
        PrevIn(mem, first, blocks, i + 1);
        prev := curr;
        curr := mem[curr].next;
        i := i + 1;
      }
    }

    /** getmem: the first block that is large enough, from its low end. */
    method Getmem(nbytes: int) returns (r: int)
      requires Valid() && 0 <= nbytes < WORD
      modifies this
      ensures Valid()
      ensures var l, n := old(blocks), Roundmb(nbytes);
        var i := FirstFit(l, n);
        if nbytes == 0 || i == |l| then r == SYSERR && blocks == l else r == l[i].addr && blocks == TakenLow(l, i, n)
    {
      hide Roundmb, Ordered, Listed, FirstFit;
      if nbytes == 0 {
        return SYSERR;
      }
      var n := Roundmb(nbytes);
      RoundmbUp(nbytes);
      ghost var i := FirstFit(blocks, n);
      var prev, curr := FindFirst(n);
      if curr == NULL {
        return SYSERR;
      }
      PrevIn(mem, first, blocks, i);
      LowOk(blocks, minheap, i, n);
      if mem[curr].length == n {
        Unlinks(mem, first, blocks, minheap, i);
        SetNext(prev, mem[curr].next);
      } else {
        Splits(mem, first, blocks, minheap, i, n);
        var leftover := curr + n;
        SetNext(prev, leftover);
        mem := mem[leftover := Memblk(mem[curr].next, mem[curr].length - n)];
      }
      total := total - n;
      blocks := TakenLow(blocks, i, n);
      return curr;
    }

    /** The last free block of at least n bytes, and what comes before it. */
    method FindLast(n: int) returns (fitsprev: int, fits: int)
      requires Valid()
      ensures var f := LastFit(blocks, n); (fits == NULL <==> f == -1) && (f >= 0 ==> fits == blocks[f].addr && fitsprev == PrevAt(blocks, f))
    {
      OrderedAscends(blocks, minheap);
      ghost var f, i := -1, 0;
      var prev, curr := HEAD, first;
      fits, fitsprev := NULL, HEAD;
      while curr != NULL
        invariant 0 <= i <= |blocks| && curr == AddrAt(blocks, i) && prev == PrevAt(blocks, i)
        invariant -1 <= f < i && (forall j :: f < j < i ==> blocks[j].len < n) && (f >= 0 ==> blocks[f].len >= n)
        invariant if f == -1 then fits == NULL else fits == blocks[f].addr && fitsprev == PrevAt(blocks, f)
        decreases |blocks| - i
      {
        PrevIn(mem, first, blocks, i);
        if mem[curr].length >= n {
          fits, fitsprev := curr, prev;
          f := i;
        }
        prev := curr;
        curr := mem[curr].next;
        i := i + 1;
      }
    }

    /** getstk: the last block that is large enough, from its high end; the result is the address of
        the highest word. */
    method Getstk(nbytes: int) returns (r: int)
      requires Valid() && 0 <= nbytes < WORD
      modifies this
      ensures Valid()
      ensures var l, n := old(blocks), Roundmb(nbytes);
        var i := LastFit(l, n);
        if nbytes == 0 || i == -1 then r == SYSERR && blocks == l else r == l[i].End() - 4 && blocks == TakenHigh(l, i, n)
    {
      hide Roundmb, Ordered, Listed, LastFit;
      if nbytes == 0 {
        return SYSERR;
      }
      var n := Roundmb(nbytes);
      RoundmbUp(nbytes);
      ghost var f := LastFit(blocks, n);
      var fitsprev, fits := FindLast(n);
      if fits == NULL {
        return SYSERR;
      }
      PrevIn(mem, first, blocks, f);
      HighOk(blocks, minheap, f, n);
      if n == mem[fits].length {
        Unlinks(mem, first, blocks, minheap, f);
        SetNext(fitsprev, mem[fits].next);
      } else {
        Shrinks(mem, first, blocks, minheap, f, n);
        mem := mem[fits := mem[fits].(length := mem[fits].length - n)];
        fits := fits + mem[fits].length;
      }
      total := total - n;
      blocks := TakenHigh(blocks, f, n);
      return fits + n - 4;
    }

    /** The first free block that is not below an address, and what comes before it. */
    method FindPlace(block: int) returns (prev: int, next: int)
      requires Valid()
      ensures var i := Below(blocks, block); next == AddrAt(blocks, i) && prev == PrevAt(blocks, i) && (next == NULL <==> i == |blocks|)
    {
      OrderedAscends(blocks, minheap);
      ghost var i := 0;
      prev, next := HEAD, first;
      while next != NULL && next < block
        invariant 0 <= i <= |blocks| && next == AddrAt(blocks, i) && prev == PrevAt(blocks, i)
        invariant forall j :: 0 <= j < i ==> blocks[j].addr < block
        decreases |blocks| - i
      {
        PrevIn(mem, first, blocks, i);
        prev := next;
        next := mem[next].next;
        i := i + 1;
      }
    }

    /** The decision of freemem, for every address and size; the end of the range is computed in 32
        bits. RejectsIff says when it is right. */
    method Refuses(blkaddr: int, nbytes: int) returns (refused: bool, prev: int, next: int, top: int)
      requires Valid() && 0 <= blkaddr < WORD && 0 <= nbytes < WORD
      ensures refused <==> nbytes == 0 || blkaddr < minheap || blkaddr > maxheap || Overlaps(blocks, blkaddr, Roundmb(nbytes))
      ensures !refused ==> var i := Below(blocks, blkaddr);
        prev == PrevAt(blocks, i) && next == AddrAt(blocks, i) && top == if i > 0 then blocks[i - 1].End() else NULL
    {
      prev, next, top := HEAD, NULL, NULL;
      if nbytes == 0 || blkaddr < minheap || blkaddr > maxheap {
        refused := true;
        return;
      }
      var n := Roundmb(nbytes);
      prev, next := FindPlace(blkaddr);
      EndBefore(mem, first, blocks, minheap, Below(blocks, blkaddr));
      top := if prev == HEAD then NULL else prev + mem[prev].length;
      refused := (prev != HEAD && blkaddr < top) || (next != NULL && Add32(blkaddr, n) > next);
    }

    /** freemem, of a range that does not run over the end of the 32-bit space. */
    method Freemem(blkaddr: int, nbytes: int) returns (r: int)
      requires Valid() && 0 <= blkaddr < WORD && 0 <= nbytes <= WORD - 8 && blkaddr + Roundmb(nbytes) < WORD
      modifies this
      ensures Valid()
      ensures var l, n := old(blocks), Roundmb(nbytes);
        if nbytes == 0 || blkaddr < minheap || blkaddr > maxheap || Overlaps(l, blkaddr, n) then r == SYSERR && blocks == l && total == old(total)
        else r == OK && blocks == Freed(l, blkaddr, n)
    {
      var refused, prev, next, top := Refuses(blkaddr, nbytes);
      if refused {
        return SYSERR;
      }
      RoundmbUp(nbytes);
      Place(blkaddr, Roundmb(nbytes), prev, next, top);
      return OK;
    }

    /** The range joins the block before it, or becomes a block of its own. */
    method Place(blkaddr: int, n: int, prev: int, next: int, top: int)
      requires Valid() && minheap <= blkaddr && 0 < n && n % 8 == 0 && blkaddr + n < WORD && !Overlaps(blocks, blkaddr, n)
      requires var i := Below(blocks, blkaddr);
        prev == PrevAt(blocks, i) && next == AddrAt(blocks, i) && top == if i > 0 then blocks[i - 1].End() else NULL
      modifies this
      ensures Valid() && blocks == Freed(old(blocks), blkaddr, n)
    {
      ghost var k := PlaceOf(blocks, blkaddr);
      PlacedOk(blocks, minheap, blkaddr, n);
      SumPlaced(blocks, blkaddr, n);
      var block := blkaddr;
      if top == blkaddr {
        Grows(mem, first, blocks, minheap, blkaddr, n);
        mem := mem[prev := mem[prev].(length := mem[prev].length + n)];
        block := prev;
      } else {
        Inserts(mem, first, blocks, minheap, blkaddr, n);
        mem := mem[block := Memblk(next, n)];
        SetNext(prev, block);
      }
      total := total + n;
      blocks := Placed(blocks, blkaddr, n);
      Coalesce(block, k);
    }

    /** The end of freemem: the block and the next one become one if they are adjacent. */
    method Coalesce(block: int, ghost k: nat)
      requires 0 < minheap <= maxheap < WORD && Touching(blocks, minheap, k) && Listed(mem, first, blocks) && total == Sum(blocks)
      requires block == blocks[k].addr
      modifies this
      ensures Valid() && blocks == Merged(old(blocks), k)
    {
      Merges(mem, first, blocks, minheap, k);
      MergedOk(blocks, minheap, k);
      SumMerged(blocks, k);
      var next := mem[block].next;
      if block + mem[block].length == next {
        mem := mem[block := mem[block].(length := mem[block].length + mem[next].length)];
        mem := mem[block := mem[block].(next := mem[next].next)];
        assert mem == old(mem)[block := Memblk(old(mem)[next].next, old(mem)[block].length + old(mem)[next].length)];
      }
      blocks := Merged(blocks, k);
    }

    /** freestk. */
    method Freestk(p: int, len: int) returns (r: int)
      requires Valid() && 0 <= len <= WORD - 8 && 0 <= p - Roundmb(len) + 4 && p + 4 < WORD
      modifies this
      ensures Valid()
      ensures var l, n, b := old(blocks), Roundmb(len), p - Roundmb(len) + 4;
        if len == 0 || b < minheap || b > maxheap || Overlaps(l, b, n) then r == SYSERR && blocks == l else r == OK && blocks == Freed(l, b, n)
    {
      RoundmbUp(len);
      RoundmbUp(Roundmb(len));
      r := Freemem(p - Roundmb(len) + 4, Roundmb(len));
    }
  }

  lemma LowOk(l: seq<Block>, lo: int, i: int, n: int)
    requires Ordered(l, lo) && 0 <= i < |l| && 0 <= n <= l[i].len && n % 8 == 0
    ensures Ordered(TakenLow(l, i, n), lo) && Sum(TakenLow(l, i, n)) == Sum(l) - n
  {
    SumTaken(l, i, n);
    if n > 0 {
      TakenLowOk(l, lo, i, n);
    } else {
      assert BlockOk(l, lo, i);
      assert l[i] == Block(l[i].addr + n, l[i].len - n);
      assert TakenLow(l, i, n) == l;
    }
  }

  lemma HighOk(l: seq<Block>, lo: int, i: int, n: int)
    requires Ordered(l, lo) && 0 <= i < |l| && 0 <= n <= l[i].len && n % 8 == 0
    ensures Ordered(TakenHigh(l, i, n), lo) && Sum(TakenHigh(l, i, n)) == Sum(l) - n
  {
    SumTaken(l, i, n);
    if n > 0 {
      TakenHighOk(l, lo, i, n);
    } else {
      assert BlockOk(l, lo, i);
      assert l[i] == Block(l[i].addr, l[i].len - n);
      assert TakenHigh(l, i, n) == l;
    }
  }

  /** The rest of block i linked in its place. */
  lemma Splits(mem: map<int, Memblk>, first: int, l: seq<Block>, lo: int, i: int, n: int)
    requires Listed(mem, first, l) && Ordered(l, lo) && 0 < lo && 0 <= i < |l| && 0 <= n < l[i].len && Ordered(TakenLow(l, i, n), lo)
    ensures PrevAt(l, i) == HEAD || PrevAt(l, i) in mem
    ensures var b, (m, f) := Block(l[i].addr + n, l[i].len - n), Linked(mem, first, PrevAt(l, i), l[i].addr + n);
      Listed(m[b.addr := Memblk(AddrAt(l, i + 1), b.len)], f, TakenLow(l, i, n)) && l[i].addr in m && m[l[i].addr] == mem[l[i].addr]
  {
    OrderedAscends(l, lo);
    OrderedAscends(TakenLow(l, i, n), lo);
    var b := Block(l[i].addr + n, l[i].len - n);
    assert l[..i] + [b] + l[i + 1..] == TakenLow(l, i, n);
    LinksIn(mem, first, l, i, i + 1, b);
    PrevIn(mem, first, l, i);
  }

  /** Block i without its high end. */
  lemma Shrinks(mem: map<int, Memblk>, first: int, l: seq<Block>, lo: int, i: int, n: int)
    requires Listed(mem, first, l) && Ordered(l, lo) && 0 <= i < |l| && 0 <= n < l[i].len
    ensures l[i].addr in mem && Listed(mem[l[i].addr := mem[l[i].addr].(length := l[i].len - n)], first, TakenHigh(l, i, n))
  {
    OrderedAscends(l, lo);
    PrevIn(mem, first, l, i);
    Absorbs(mem, first, l, i, i + 1, l[i].len - n);
    assert TakenHigh(l, i, n) == l[..i] + [Block(l[i].addr, l[i].len - n)] + l[i + 1..];
  }

  /** Where the block before block i ends. */
  lemma EndBefore(mem: map<int, Memblk>, first: int, l: seq<Block>, lo: int, i: int)
    requires Listed(mem, first, l) && Ordered(l, lo) && 0 < lo && 0 <= i <= |l|
    ensures i > 0 ==> PrevAt(l, i) != HEAD && PrevAt(l, i) in mem && PrevAt(l, i) + mem[PrevAt(l, i)].length == l[i - 1].End()
    ensures i == 0 ==> PrevAt(l, i) == HEAD
    ensures AddrAt(l, i) != NULL <==> i < |l|
  {
    OrderedAscends(l, lo);
    if i > 0 {
      PrevIn(mem, first, l, i - 1);
    }
  }

  /** The block before the range with the range added. */
  lemma Grows(mem: map<int, Memblk>, first: int, l: seq<Block>, lo: int, b: int, n: int)
    requires Listed(mem, first, l) && Ordered(l, lo) && Below(l, b) > 0 && l[Below(l, b) - 1].End() == b
    ensures var p := l[Below(l, b) - 1].addr; p in mem && Listed(mem[p := mem[p].(length := mem[p].length + n)], first, Placed(l, b, n))
  {
    var i := Below(l, b);
    OrderedAscends(l, lo);
    PrevIn(mem, first, l, i - 1);
    Absorbs(mem, first, l, i - 1, i, l[i - 1].len + n);
    assert Placed(l, b, n) == l[..i - 1] + [Block(l[i - 1].addr, l[i - 1].len + n)] + l[i..];
  }

  /** The range as a block of its own. */
  lemma Inserts(mem: map<int, Memblk>, first: int, l: seq<Block>, lo: int, b: int, n: int)
    requires Listed(mem, first, l) && Ordered(l, lo) && 0 < lo <= b && !(Below(l, b) > 0 && l[Below(l, b) - 1].End() == b)
    requires 0 < n && Touching(Placed(l, b, n), lo, PlaceOf(l, b))
    ensures var i := Below(l, b);
      var m := mem[b := Memblk(AddrAt(l, i), n)];
      && (PrevAt(l, i) == HEAD || PrevAt(l, i) in m)
      && var (m', f) := Linked(m, first, PrevAt(l, i), b); Listed(m', f, Placed(l, b, n))
  {
    var i, l' := Below(l, b), Placed(l, b, n);
    OrderedAscends(l, lo);
    forall x, y | 0 <= x < y < |l'|
      ensures l'[x].addr < l'[y].addr
    {
      assert AloneOk(l', lo, x) && PairOk(l', PlaceOf(l, b), x, y);
    }
    LinksIn(mem, first, l, i, i, Block(b, n));
    var m := mem[b := Memblk(AddrAt(l, i), n)];
    assert PrevAt(l, i) != b;
    assert Linked(m, first, PrevAt(l, i), b).0 == Linked(mem, first, PrevAt(l, i), b).0[b := Memblk(AddrAt(l, i), n)];
  }

  /** Block k and the next one as one. */
  lemma Merges(mem: map<int, Memblk>, first: int, l: seq<Block>, lo: int, k: nat)
    requires Listed(mem, first, l) && Touching(l, lo, k) && 0 < lo
    ensures var p := l[k].addr;
      && p in mem && mem[p] == Memblk(AddrAt(l, k + 1), l[k].len) && (k + 1 < |l| <==> AddrAt(l, k + 1) != NULL) && p + l[k].len != NULL
      && if k + 1 < |l| && l[k].End() == l[k + 1].addr then
           var n := l[k + 1].addr;
           n in mem && n != p && Listed(mem[p := Memblk(mem[n].next, mem[p].length + mem[n].length)], first, Merged(l, k))
         else Merged(l, k) == l
  {
    assert AloneOk(l, lo, k);
    PrevIn(mem, first, l, k);
    if k + 1 < |l| {
      assert AloneOk(l, lo, k + 1);
      PrevIn(mem, first, l, k + 1);
      if l[k].End() == l[k + 1].addr {
        forall x, y | 0 <= x < y < |l|
          ensures l[x].addr < l[y].addr
        {
          assert AloneOk(l, lo, x) && PairOk(l, k, x, y);
        }
        Absorbs(mem, first, l, k, k + 2, l[k].len + l[k + 1].len);
      }
    }
  }
}
