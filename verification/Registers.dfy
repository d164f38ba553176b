/** Registers that words are added into, over any words with an exclusive-or: what the steps of a
    checksum have in common. */
module Registers {

  type Op<!W> = (W, W) -> W

  // ---- laws

  ghost predicate MixAt<W>(xor: Op<W>, a: W, b: W, c: W, d: W) { xor(xor(a, b), xor(c, d)) == xor(xor(a, c), xor(b, d)) }

  ghost predicate ZeroAt<W>(xor: Op<W>, zero: W, a: W, b: W) { (xor(a, b) == zero <==> a == b) && xor(a, zero) == a && xor(zero, a) == a }

  /** An exclusive-or. */
  ghost predicate Additive<W(!new)>(xor: Op<W>, zero: W) {
    && (forall a, b, c, d {:trigger MixAt(xor, a, b, c, d)} :: MixAt(xor, a, b, c, d))
    && (forall a, b {:trigger ZeroAt(xor, zero, a, b)} :: ZeroAt(xor, zero, a, b))
  }

  ghost predicate LinearAt<W>(xor: Op<W>, f: W -> W, x: W, y: W) { f(xor(x, y)) == xor(f(x), f(y)) }

  ghost predicate Linear<W(!new)>(xor: Op<W>, f: W -> W) {
    forall x, y {:trigger LinearAt(xor, f, x, y)} :: LinearAt(xor, f, x, y)
  }

  ghost predicate FaithfulAt<W>(f: W -> W, zero: W, x: W) { f(x) == zero <==> x == zero }

  /** Only zero goes to zero. */
  ghost predicate Faithful<W(!new)>(f: W -> W, zero: W) {
    forall x {:trigger FaithfulAt(f, zero, x)} :: FaithfulAt(f, zero, x)
  }

  // ---- repeated steps

  function Iterate<W>(f: W -> W, c: W, n: nat): W
    decreases n
  {
    if n == 0 then c else Iterate(f, f(c), n - 1)
  }

  lemma {:induction false} IterateLinear<W(!new)>(xor: Op<W>, f: W -> W, x: W, y: W, n: nat)
    requires Linear(xor, f)
    ensures Iterate(f, xor(x, y), n) == xor(Iterate(f, x, n), Iterate(f, y, n))
    decreases n
  {
    if n > 0 {
      assert LinearAt(xor, f, x, y);
      IterateLinear(xor, f, f(x), f(y), n - 1);
    }
  }

  lemma {:induction false} IterateFaithful<W(!new)>(f: W -> W, zero: W, x: W, n: nat)
    requires Faithful(f, zero)
    ensures Iterate(f, x, n) == zero <==> x == zero
    decreases n
  {
    if n > 0 {
      assert FaithfulAt(f, zero, x);
      IterateFaithful(f, zero, f(x), n - 1);
    }
  }

  // ---- a register and a message

  /** Every word is added to the register, which then makes a turn. */
  function Fold<W>(xor: Op<W>, turn: W -> W, c: W, ws: seq<W>): W
    decreases |ws|
  {
    if ws == [] then c else Fold(xor, turn, turn(xor(c, ws[0])), ws[1..])
  }

  lemma {:induction false} FoldConcat<W>(xor: Op<W>, turn: W -> W, c: W, s: seq<W>, t: seq<W>)
    ensures Fold(xor, turn, c, s + t) == Fold(xor, turn, Fold(xor, turn, c, s), t)
    decreases |s|
  {
    if s == [] {
      assert s + t == t;
    } else {
      assert (s + t)[0] == s[0] && (s + t)[1..] == s[1..] + t;
      FoldConcat(xor, turn, turn(xor(c, s[0])), s[1..], t);
    }
  }

  function Xors<W>(xor: Op<W>, s: seq<W>, t: seq<W>): seq<W>
    requires |s| == |t|
  {
    seq(|s|, i requires 0 <= i < |s| => xor(s[i], t[i]))
  }

  /** The difference of two registers depends only on the differences of what went in. */
  lemma {:induction false} FoldXors<W(!new)>(xor: Op<W>, zero: W, turn: W -> W, c: W, d: W, s: seq<W>, t: seq<W>)
    requires Additive(xor, zero) && Linear(xor, turn) && |s| == |t|
    ensures xor(Fold(xor, turn, c, s), Fold(xor, turn, d, t)) == Fold(xor, turn, xor(c, d), Xors(xor, s, t))
    decreases |s|
  {
    if s != [] {
      assert MixAt(xor, c, s[0], d, t[0]) && LinearAt(xor, turn, xor(c, s[0]), xor(d, t[0]));
      assert Xors(xor, s, t)[1..] == Xors(xor, s[1..], t[1..]);
      FoldXors(xor, zero, turn, turn(xor(c, s[0])), turn(xor(d, t[0])), s[1..], t[1..]);
    }
  }

  /** Words of zero keep a register from zero, or at zero. */
  lemma {:induction false} FoldZeros<W(!new)>(xor: Op<W>, zero: W, turn: W -> W, c: W, z: seq<W>)
    requires Additive(xor, zero) && Faithful(turn, zero) && forall i :: 0 <= i < |z| ==> z[i] == zero
    ensures Fold(xor, turn, c, z) == zero <==> c == zero
    decreases |z|
  {
    if z != [] {
      assert ZeroAt(xor, zero, c, zero) && FaithfulAt(turn, zero, c);
      FoldZeros(xor, zero, turn, turn(c), z[1..]);
    }
  }

  /** n words as one: `up` makes room for the next. */
  function Pack<W>(xor: Op<W>, zero: W, up: W -> W, w: seq<W>): W
    decreases |w|
  {
    if w == [] then zero else xor(w[0], up(Pack(xor, zero, up, w[1..])))
  }

  /** A turn takes back what `up` did to the packed words after each place. */
  ghost predicate TurnsBack<W>(xor: Op<W>, zero: W, turn: W -> W, up: W -> W, w: seq<W>)
    decreases |w|
  {
    w == [] || (turn(up(Pack(xor, zero, up, w[1..]))) == Pack(xor, zero, up, w[1..]) && TurnsBack(xor, zero, turn, up, w[1..]))
  }

  /** As long as that is so, a few words in a row are as good as one word at the start. */
  lemma {:induction false} FoldPacked<W(!new)>(xor: Op<W>, zero: W, turn: W -> W, up: W -> W, c: W, w: seq<W>)
    requires Additive(xor, zero) && Linear(xor, turn) && TurnsBack(xor, zero, turn, up, w)
    ensures Fold(xor, turn, c, w) == Iterate(turn, xor(c, Pack(xor, zero, up, w)), |w|)
    decreases |w|
  {
    if w == [] {
      assert ZeroAt(xor, zero, c, zero);
    } else {
      var p := Pack(xor, zero, up, w[1..]);
      var c' := turn(xor(c, w[0]));
      FoldPacked(xor, zero, turn, up, c', w[1..]);
      assert LinearAt(xor, turn, xor(c, w[0]), up(p));
      assert MixAt(xor, c, w[0], zero, up(p)) && ZeroAt(xor, zero, up(p), zero) && ZeroAt(xor, zero, c, zero);
    }
  }

  /** Words that differ only in a window that packs to something else than zero leave different
      registers. */
  lemma WindowSeen<W(!new)>(xor: Op<W>, zero: W, turn: W -> W, up: W -> W, c: W, s: seq<W>, t: seq<W>, k: int, m: int)
    requires Additive(xor, zero) && Linear(xor, turn) && Faithful(turn, zero) && |s| == |t| && 0 <= k <= m <= |s|
    requires forall i :: 0 <= i < |s| && !(k <= i < m) ==> s[i] == t[i]
    requires var w := Xors(xor, s, t)[k..m]; TurnsBack(xor, zero, turn, up, w) && Pack(xor, zero, up, w) != zero
    ensures Fold(xor, turn, c, s) != Fold(xor, turn, c, t)
  {
    var z := Xors(xor, s, t);
    forall i | 0 <= i < |s| && !(k <= i < m)
      ensures z[i] == zero
    {
      assert ZeroAt(xor, zero, s[i], t[i]);
    }
    FoldXors(xor, zero, turn, c, c, s, t);
    assert ZeroAt(xor, zero, c, c) && ZeroAt(xor, zero, Fold(xor, turn, c, s), Fold(xor, turn, c, t));
    assert z == z[..k] + (z[k..m] + z[m..]);
    FoldConcat(xor, turn, zero, z[..k], z[k..m] + z[m..]);
    FoldZeros(xor, zero, turn, zero, z[..k]);
    FoldConcat(xor, turn, zero, z[k..m], z[m..]);
    var p := Pack(xor, zero, up, z[k..m]);
    FoldPacked(xor, zero, turn, up, zero, z[k..m]);
    assert ZeroAt(xor, zero, p, zero);
    IterateFaithful(turn, zero, p, m - k);
    FoldZeros(xor, zero, turn, Fold(xor, turn, zero, z[k..m]), z[m..]);
  }
}
