/** Powers of two. */
module Powers {

  function Pow2(n: nat): nat { if n == 0 then 1 else 2 * Pow2(n - 1) }

  function Log2(n: nat): nat { if n < 2 then 0 else 1 + Log2(n / 2) }

  lemma {:induction false} Log2Is(n: nat)
    ensures n < Pow2(Log2(n) + 1) && (n > 0 ==> Pow2(Log2(n)) <= n)
  {
    if n >= 2 {
      Log2Is(n / 2);
    }
  }
}
