/** Why masking with 2^k - 1 turns a sequence number into a slot index. */
module Bits {

  function Pow2(k: nat): (p: nat)
    ensures p > 0
  {
    if k == 0 then 1 else 2 * Pow2(k - 1)
  }

  // The bitwise and of two non-negative numbers, one binary digit at a time.
  function BitAnd(a: nat, b: nat): nat
    decreases b
  {
    if b == 0 then 0 else (if a % 2 == 1 && b % 2 == 1 then 1 else 0) + 2 * BitAnd(a / 2, b / 2)
  }

  lemma SmallMultiple(d: int, n: int)
    requires n > 0 && -n < d * n < n
    ensures d == 0
  {
    assert d >= 1 ==> d * n >= n;
    assert d <= -1 ==> d * n <= -n;
  }

  lemma ModUnique(a: int, n: int, q: int, r: int)
    requires n > 0 && 0 <= r < n && a == q * n + r
    ensures a % n == r && a / n == q
  {
    var d := q - a / n;
    assert a == a / n * n + a % n;
    assert d * n == q * n - a / n * n;
    SmallMultiple(d, n);
  }

  // The last binary digit of a is not affected by reducing the others.
  lemma ModDouble(a: int, half: int)
    requires half > 0
    ensures a % (2 * half) == 2 * (a / 2 % half) + a % 2
  {
    var b := a / 2;
    var q, r := b / half, b % half;
    assert b == q * half + r;
    assert q * (2 * half) == 2 * (q * half);
    ModUnique(a, 2 * half, q, 2 * r + a % 2);
  }

  lemma {:induction false} MaskIsMod(a: nat, k: nat)
    ensures BitAnd(a, Pow2(k) - 1) == a % Pow2(k)
  {
    if k > 0 {
      MaskIsMod(a / 2, k - 1);
      MaskDouble(a, Pow2(k - 1));
    }
  }

  lemma MaskDouble(a: nat, half: nat)
    requires half > 0 && BitAnd(a / 2, half - 1) == a / 2 % half
    ensures BitAnd(a, 2 * half - 1) == a % (2 * half)
  {
    MaskStep(a, half);
    ModDouble(a, half);
  }

  lemma MaskStep(a: nat, half: nat)
    requires half > 0
    ensures BitAnd(a, 2 * half - 1) == a % 2 + 2 * BitAnd(a / 2, half - 1)
  {
    var m := 2 * half - 1;
    assert m % 2 == 1 && m / 2 == half - 1;
  }

  lemma ModInjective(a: int, b: int, n: int)
    requires n > 0 && a % n == b % n && a - n < b < a + n
    ensures a == b
  {
    var d := a / n - b / n;
    assert d * n == a / n * n - b / n * n;
    SmallMultiple(d, n);
  }

  lemma ModAdd(a: int, n: int)
    requires n > 0
    ensures (a + n) % n == a % n
  {
    ModUnique(a + n, n, a / n + 1, a % n);
  }
}
