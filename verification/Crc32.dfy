/** CRC-32: a table of 256 entries, one step a byte, against the shift register that takes one bit
    a step (section 8 of RFC 1952). A word is the sequence of its bits, the lowest first. */
module Crc32 {
  import opened Powers
  import opened Registers

  type Word = w: seq<bool> | |w| == 32 witness seq(32, i => false)
  type Byte = b: seq<bool> | |b| == 8 witness seq(8, i => false)

  function Falses(n: nat): (r: seq<bool>)
    ensures |r| == n && forall i :: 0 <= i < n ==> !r[i]
  {
    seq(n, i => false)
  }

  function Zero(): Word { Falses(32) }

  function Ones(): Word { seq(32, i => true) }

  /** The powers of x in the polynomial, but for x^32. */
  const POWERS := [0, 1, 2, 4, 5, 7, 8, 10, 11, 12, 16, 22, 23, 26]

  /** x^32 modulo the polynomial, the lowest power in the highest bit. */
  function Poly(): Word { seq(32, i => 31 - i in POWERS) }

  function Xor(a: Word, b: Word): Word {
    seq(32, i requires 0 <= i < 32 => a[i] != b[i])
  }

  function Shr(x: Word, n: nat): Word
    requires n <= 32
  {
    x[n..] + Falses(n)
  }

  /** A byte as a word. */
  function Extend(b: Byte): Word { b + Falses(24) }

  // ---- the reference: a shift register

  /** One bit shifted in: the register is multiplied by x, and x^32 is reduced if the bit that comes
      out, or the one that goes in, but not both, is a one. */
  function ShiftIn(c: Word, bit: bool): Word {
    if c[0] != bit then Xor(Shr(c, 1), Poly()) else Shr(c, 1)
  }

  function ShiftBits(c: Word, bits: seq<bool>): Word
    decreases |bits|
  {
    if bits == [] then c else ShiftBits(ShiftIn(c, bits[0]), bits[1..])
  }

  /** The register after a message. */
  function Register(c: Word, s: seq<Byte>): Word
    decreases |s|
  {
    if s == [] then c else Register(ShiftBits(c, s[0]), s[1..])
  }

  /** The checksum of a message that goes on after one whose checksum is crc. */
  function Checksum(crc: Word, s: seq<Byte>): Word { Xor(Register(Xor(crc, Ones()), s), Ones()) }

  // ---- the table

  /** One step of make_crc_table's inner loop. */
  function Step(c: Word): Word {
    if c[0] then Xor(Poly(), Shr(c, 1)) else Shr(c, 1)
  }

  /** Eight steps. */
  function Turn(c: Word): Word { Iterate(Step, c, 8) }

  /** The number that bits stand for. */
  function Value(bits: seq<bool>): nat {
    if bits == [] then 0 else (if bits[0] then 1 else 0) + 2 * Value(bits[1..])
  }

  /** The lowest k bits of a number. */
  function Bits(n: nat, k: nat): (r: seq<bool>)
    ensures |r| == k
  {
    if k == 0 then [] else [n % 2 == 1] + Bits(n / 2, k - 1)
  }

  /** A number as a word. */
  function WordOf(n: nat): Word { Bits(n, 32) }

  lemma {:induction false} BitsOfValue(bits: seq<bool>, k: nat)
    ensures Bits(Value(bits), |bits| + k) == bits + Falses(k)
    decreases |bits| + k
  {
    if bits != [] {
      var v := Value(bits[1..]);
      BitsOfValue(bits[1..], k);
      assert Value(bits) / 2 == v && (Value(bits) % 2 == 1 <==> bits[0]);
      assert [bits[0]] + (bits[1..] + Falses(k)) == bits + Falses(k);
    } else if k > 0 {
      BitsOfValue(bits, k - 1);
    }
  }

  lemma {:induction false} ValueBound(bits: seq<bool>)
    ensures Value(bits) < Pow2(|bits|)
  {
    if bits != [] {
      ValueBound(bits[1..]);
    }
  }

  /** Entry n of the table. */
  function Entry(n: nat): Word { Turn(WordOf(n)) }

  /** The register after a byte, by the table: what DO1 computes. */
  function Next(c: Word, b: Byte): Word { Xor(Entry(Value(Xor(c, Extend(b))[..8])), Shr(c, 8)) }

  // ---- laws

  lemma Same(a: Word, b: Word)
    requires forall i :: 0 <= i < 32 ==> a[i] == b[i]
    ensures a == b
  {
  }

  lemma XorAdds()
    ensures Additive(Xor, Zero())
  {
    forall a, b, c, d
      ensures MixAt(Xor, a, b, c, d)
    {
      Same(Xor(Xor(a, b), Xor(c, d)), Xor(Xor(a, c), Xor(b, d)));
    }
    forall a, b
      ensures ZeroAt(Xor, Zero(), a, b)
    {
      XorZero(a, b);
    }
  }

  lemma XorZero(a: Word, b: Word)
    ensures (Xor(a, b) == Zero() <==> a == b) && Xor(a, Zero()) == a && Xor(Zero(), a) == a
  {
    Same(Xor(a, Zero()), a);
    Same(Xor(Zero(), a), a);
    if Xor(a, b) == Zero() {
      forall i | 0 <= i < 32
        ensures a[i] == b[i]
      {
        assert !Xor(a, b)[i];
      }
      Same(a, b);
    }
    if a == b {
      Same(Xor(a, b), Zero());
    }
  }

  /** The steps lose nothing: the polynomial's highest bit tells which bit went out. */
  lemma StepFaithful(x: Word)
    ensures FaithfulAt(Step, Zero(), x)
  {
    if Step(x) == Zero() {
      assert !Step(x)[31] && Poly()[31];
      forall i | 0 <= i < 32
        ensures !x[i]
      {
        if i > 0 {
          assert !Step(x)[i - 1];
        }
      }
      Same(x, Zero());
    }
    if x == Zero() {
      Same(Step(x), Zero());
    }
  }

  lemma StepLaws()
    ensures Linear(Xor, Step) && Faithful(Step, Zero())
  {
    forall x, y
      ensures LinearAt(Xor, Step, x, y)
    {
      Same(Step(Xor(x, y)), Xor(Step(x), Step(y)));
    }
    forall x
      ensures FaithfulAt(Step, Zero(), x)
    {
      StepFaithful(x);
    }
  }

  lemma TurnLaws()
    ensures Linear(Xor, Turn) && Faithful(Turn, Zero())
  {
    StepLaws();
    forall x, y
      ensures LinearAt(Xor, Turn, x, y)
    {
      IterateLinear(Xor, Step, x, y, 8);
    }
    forall x
      ensures FaithfulAt(Turn, Zero(), x)
    {
      IterateFaithful(Step, Zero(), x, 8);
    }
  }

  /** As long as zeros come out, steps only shift. */
  lemma {:induction false} IterateShifts(x: Word, n: nat)
    requires n <= 32 && forall i :: 0 <= i < n ==> !x[i]
    ensures Iterate(Step, x, n) == Shr(x, n)
    decreases n
  {
    if n == 0 {
      Same(Shr(x, 0), x);
    } else {
      Same(Step(x), Shr(x, 1));
      IterateShifts(Shr(x, 1), n - 1);
      Same(Shr(Shr(x, 1), n - 1), Shr(x, n));
    }
  }

  /** A lookup in the table does what a turn of the whole register would. */
  lemma NextIs(c: Word, b: Byte)
    ensures Next(c, b) == Turn(Xor(c, Extend(b)))
  {
    hide Iterate;
    var x := Xor(c, Extend(b));
    var low: Word, high: Word := x[..8] + Falses(24), Falses(8) + x[8..];
    BitsOfValue(x[..8], 24);
    Same(Xor(low, high), x);
    TurnLaws();
    assert LinearAt(Xor, Turn, low, high);
    IterateShifts(high, 8);
    Same(Shr(high, 8), Shr(c, 8));
  }

  /** Shifting bits in one at a time is adding them all first, and then the steps. */
  lemma {:induction false} ShiftBitsIs(c: Word, y: Word, n: nat)
    requires n <= 32
    ensures Xor(ShiftBits(c, y[..n]), Shr(y, n)) == Iterate(Step, Xor(c, y), n)
    decreases n
  {
    if n == 0 {
      Same(Shr(y, 0), y);
    } else {
      Same(Xor(ShiftIn(c, y[0]), Shr(y, 1)), Step(Xor(c, y)));
      ShiftBitsIs(ShiftIn(c, y[0]), Shr(y, 1), n - 1);
      Same(Shr(Shr(y, 1), n - 1), Shr(y, n));
      assert Shr(y, 1)[..n - 1] == y[..n][1..];
    }
  }

  lemma ByteShifted(c: Word, b: Byte)
    ensures ShiftBits(c, b) == Turn(Xor(c, Extend(b)))
  {
    ShiftBitsIs(c, Extend(b), 8);
    assert Extend(b)[..8] == b;
    Same(Shr(Extend(b), 8), Zero());
    XorZero(ShiftBits(c, b), Zero());
  }

  // ---- messages

  function Words(s: seq<Byte>): (r: seq<Word>)
    ensures |r| == |s| && forall i :: 0 <= i < |s| ==> r[i] == Extend(s[i])
  {
    if s == [] then [] else [Extend(s[0])] + Words(s[1..])
  }

  lemma {:induction false} RegisterFolds(c: Word, s: seq<Byte>)
    ensures Register(c, s) == Fold(Xor, Turn, c, Words(s))
    decreases |s|
  {
    if s != [] {
      ByteShifted(c, s[0]);
      RegisterFolds(ShiftBits(c, s[0]), s[1..]);
    }
  }

  /** The table's way through a message: a lookup for every byte. */
  function ByTable(c: Word, s: seq<Byte>): Word
    decreases |s|
  {
    if s == [] then c else ByTable(Next(c, s[0]), s[1..])
  }

  /** It leaves the register as the shift register does, for every message. */
  lemma {:induction false} TableIsSerial(c: Word, s: seq<Byte>)
    ensures ByTable(c, s) == Register(c, s)
    decreases |s|
  {
    if s != [] {
      NextIs(c, s[0]);
      ByteShifted(c, s[0]);
      TableIsSerial(Next(c, s[0]), s[1..]);
    }
  }

  lemma {:induction false} RegisterConcat(c: Word, s: seq<Byte>, t: seq<Byte>)
    ensures Register(c, s + t) == Register(Register(c, s), t)
    decreases |s|
  {
    if s == [] {
      assert s + t == t;
    } else {
      assert (s + t)[0] == s[0] && (s + t)[1..] == s[1..] + t;
      RegisterConcat(ShiftBits(c, s[0]), s[1..], t);
    }
  }

  /** A message may be given to successive calls in parts. */
  lemma InParts(crc: Word, s: seq<Byte>, t: seq<Byte>)
    ensures Checksum(crc, s + t) == Checksum(Checksum(crc, s), t)
  {
    var r := Register(Xor(crc, Ones()), s);
    RegisterConcat(Xor(crc, Ones()), s, t);
    Same(Xor(Xor(r, Ones()), Ones()), r);
  }

  // ---- differences that are always seen

  function Up(p: Word): Word { Falses(8) + p[..24] }

  lemma TurnTakesBack(p: Word)
    requires forall i :: 24 <= i < 32 ==> !p[i]
    ensures Turn(Up(p)) == p
  {
    IterateShifts(Up(p), 8);
    Same(Shr(Up(p), 8), p);
  }

  /** Words that have bits in their low byte only. */
  ghost predicate LowWords(w: seq<Word>) {
    forall j, i :: 0 <= j < |w| && 8 <= i < 32 ==> !w[j][i]
  }

  /** At most four bytes pack without touching each other. */
  lemma {:induction false} Packs(w: seq<Word>)
    requires |w| <= 4 && LowWords(w)
    ensures TurnsBack(Xor, Zero(), Turn, Up, w) && forall i :: 8 * |w| <= i < 32 ==> !Pack(Xor, Zero(), Up, w)[i]
    ensures Pack(Xor, Zero(), Up, w) == Zero() ==> forall j :: 0 <= j < |w| ==> w[j] == Zero()
    decreases |w|
  {
    if w != [] {
      var p, q := Pack(Xor, Zero(), Up, w[1..]), Pack(Xor, Zero(), Up, w);
      assert forall j, i :: 0 <= j < |w[1..]| && 8 <= i < 32 ==> !w[1..][j][i];
      Packs(w[1..]);
      TurnTakesBack(p);
      assert q == Xor(w[0], Up(p));
      if q == Zero() {
        PackedZero(w[0], p);
        assert forall j :: 0 < j < |w| ==> w[j] == w[1..][j - 1];
      }
    }
  }

  lemma PackedZero(x: Word, p: Word)
    requires (forall i :: 8 <= i < 32 ==> !x[i]) && (forall i :: 24 <= i < 32 ==> !p[i]) && Xor(x, Up(p)) == Zero()
    ensures x == Zero() && p == Zero()
  {
    forall i | 0 <= i < 32
      ensures !x[i] && !p[i]
    {
      assert !Xor(x, Up(p))[i];
      if i < 24 {
        assert !Xor(x, Up(p))[i + 8];
      }
    }
    Same(x, Zero());
    Same(p, Zero());
  }

  /** Messages of one length that differ only inside four bytes in a row never have the same
      checksum. */
  lemma BurstSeen(crc: Word, s: seq<Byte>, t: seq<Byte>, k: int)
    requires |s| == |t| && s != t && 0 <= k <= |s|
    requires forall i :: 0 <= i < |s| && !(k <= i < k + 4) ==> s[i] == t[i]
    ensures Checksum(crc, s) != Checksum(crc, t)
  {
    var c, m := Xor(crc, Ones()), if k + 4 <= |s| then k + 4 else |s|;
    var z := Xors(Xor, Words(s), Words(t));
    var w := z[k..m];
    forall j, i | 0 <= j < |w| && 8 <= i < 32
      ensures !w[j][i]
    {
      assert w[j] == Xor(Extend(s[k + j]), Extend(t[k + j]));
    }
    Packs(w);
    var d :| 0 <= d < |s| && s[d] != t[d];
    assert w[d - k] == Xor(Extend(s[d]), Extend(t[d]));
    ExtendDiffers(s[d], t[d]);
    XorAdds();
    TurnLaws();
    WindowSeen(Xor, Zero(), Turn, Up, c, Words(s), Words(t), k, m);
    RegisterFolds(c, s);
    RegisterFolds(c, t);
    OnesKeep(Register(c, s), Register(c, t));
  }

  lemma ExtendDiffers(a: Byte, b: Byte)
    requires a != b
    ensures Xor(Extend(a), Extend(b)) != Zero()
  {
    assert Extend(a)[..8] == a && Extend(b)[..8] == b;
    XorZero(Extend(a), Extend(b));
  }

  lemma OnesKeep(a: Word, b: Word)
    requires a != b
    ensures Xor(a, Ones()) != Xor(b, Ones())
  {
    Same(Xor(Xor(a, Ones()), Ones()), a);
    Same(Xor(Xor(b, Ones()), Ones()), b);
  }

  // ---- the code

  /** The exclusive-or pattern, one power at a time. */
  method MakePoly() returns (poly: Word)
    ensures poly == Poly()
  {
    poly := Zero();
    var n := 0;
    while n < |POWERS|
      invariant 0 <= n <= |POWERS| && forall i :: 0 <= i < 32 ==> poly[i] == (31 - i in POWERS[..n])
    {
      poly := poly[31 - POWERS[n] := true];
      n := n + 1;
    }
    assert POWERS[..n] == POWERS;
    Same(poly, Poly());
  }

  /** make_crc_table. */
  method MakeTable() returns (table: array<Word>)
    ensures fresh(table) && table.Length == 256 && forall n :: 0 <= n < 256 ==> table[n] == Entry(n)
  {
    hide Xor, Shr, WordOf;
    var poly := MakePoly();
    table := new Word[256](i => Zero());
    var n := 0;
    while n < 256
      invariant 0 <= n <= 256 && forall m :: 0 <= m < n ==> table[m] == Entry(m)
    {
      var c, k := WordOf(n), 0;
      while k < 8
        invariant 0 <= k <= 8 && Entry(n) == Iterate(Step, c, 8 - k)
      {
        c := if c[0] then Xor(poly, Shr(c, 1)) else Shr(c, 1);
        k := k + 1;
      }
      table[n] := c;
      n := n + 1;
    }
  }

  ghost predicate IsTable(table: array<Word>)
    reads table
  {
    table.Length == 256 && forall n :: 0 <= n < 256 ==> table[n] == Entry(n)
  }

  /** DO1: one lookup does what shifting the byte's eight bits in does. */
  method Do1(table: array<Word>, crc: Word, b: Byte) returns (r: Word)
    requires IsTable(table)
    ensures r == Next(crc, b) == ShiftBits(crc, b)
  {
    NextIs(crc, b);
    ByteShifted(crc, b);
    var low := Xor(crc, Extend(b))[..8];
    ValueBound(low);
    assert Pow2(8) == 256;
    r := Xor(table[Value(low)], Shr(crc, 8));
  }

  lemma ByTableOne(c: Word, s: seq<Byte>, k: int)
    requires 0 <= k < |s|
    ensures ByTable(c, s[k..]) == ByTable(Next(c, s[k]), s[k + 1..])
  {
    assert s[k..][0] == s[k] && s[k..][1..] == s[k + 1..];
  }

  method Do2(table: array<Word>, crc: Word, buf: seq<Byte>, k: int) returns (r: Word)
    requires IsTable(table) && 0 <= k && k + 2 <= |buf|
    ensures ByTable(crc, buf[k..]) == ByTable(r, buf[k + 2..])
  {
    ByTableOne(crc, buf, k);
    r := Do1(table, crc, buf[k]);
    ByTableOne(r, buf, k + 1);
    r := Do1(table, r, buf[k + 1]);
  }

  method Do4(table: array<Word>, crc: Word, buf: seq<Byte>, k: int) returns (r: Word)
    requires IsTable(table) && 0 <= k && k + 4 <= |buf|
    ensures ByTable(crc, buf[k..]) == ByTable(r, buf[k + 4..])
  {
    r := Do2(table, crc, buf, k);
    r := Do2(table, r, buf, k + 2);
  }

  method Do8(table: array<Word>, crc: Word, buf: seq<Byte>, k: int) returns (r: Word)
    requires IsTable(table) && 0 <= k && k + 8 <= |buf|
    ensures ByTable(crc, buf[k..]) == ByTable(r, buf[k + 8..])
  {
    r := Do4(table, crc, buf, k);
    r := Do4(table, r, buf, k + 4);
  }

  /** The loops of crc32: eight bytes at a time, then the rest one by one. */
  method Crc32NoComp(table: array<Word>, crc0: Word, buf: seq<Byte>) returns (crc: Word)
    requires IsTable(table)
    ensures crc == Register(crc0, buf)
  {
    hide Register, Next;
    TableIsSerial(crc0, buf);
    crc := crc0;
    var len, k := |buf|, 0;
    assert buf[0..] == buf;
    while len >= 8
      invariant 0 <= len && k + len == |buf| && 0 <= k && ByTable(crc, buf[k..]) == ByTable(crc0, buf)
    {
      crc := Do8(table, crc, buf, k);
      k := k + 8;
      len := len - 8;
    }
    while len > 0
      invariant 0 <= len && k + len == |buf| && 0 <= k && ByTable(crc, buf[k..]) == ByTable(crc0, buf)
    {
      ByTableOne(crc, buf, k);
      crc := Do1(table, crc, buf[k]);
      k := k + 1;
      len := len - 1;
    }
    assert buf[k..] == [];
  }

  /** crc32. */
  method Crc32(table: array<Word>, crc: Word, buf: seq<Byte>) returns (r: Word)
    requires IsTable(table)
    ensures r == Checksum(crc, buf)
  {
    r := Crc32NoComp(table, Xor(crc, Ones()), buf);
    r := Xor(r, Ones());
  }
}
