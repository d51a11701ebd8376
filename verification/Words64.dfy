/** Unsigned 64-bit words as numbers: addition and shifts wrap around, and the bitwise
    operations go through the binary digits. */
module Words64 {
  import opened Bits

  const WORD: nat := 0x1_0000_0000_0000_0000

  type Word = x: nat | x < 0x1_0000_0000_0000_0000

  function Plus(x: Word, y: Word): Word { (x + y) % WORD }

  function Minus(x: Word, y: Word): Word { (x - y) % WORD }

  lemma PlusBack(x: Word, y: Word)
    ensures Minus(Plus(x, y), y) == x == Plus(Minus(x, y), y)
  {
  }

  function BitXor(a: nat, b: nat): nat
    decreases a + b
  {
    if a == 0 && b == 0 then 0 else (if a % 2 != b % 2 then 1 else 0) + 2 * BitXor(a / 2, b / 2)
  }

  lemma {:induction false} BitXorBack(a: nat, b: nat)
    ensures BitXor(BitXor(a, b), b) == a
    decreases a + b
  {
    if a != 0 || b != 0 {
      BitXorBack(a / 2, b / 2);
      var x := BitXor(a, b);
      assert x / 2 == BitXor(a / 2, b / 2);
    }
  }

  /** It is exclusive or: digit i of the result is the sum of the two digits i, modulo 2. */
  lemma {:induction false} BitXorDigit(a: nat, b: nat, i: nat)
    ensures BitXor(a, b) / Pow2(i) % 2 == (a / Pow2(i) + b / Pow2(i)) % 2
  {
    hide *;
    FirstDigit(a, b);
    if i > 0 {
      BitXorDigit(a / 2, b / 2, i - 1);
      HalfFirst(a, Pow2(i - 1));
      HalfFirst(b, Pow2(i - 1));
      HalfFirst(BitXor(a, b), Pow2(i - 1));
      NextPower(i - 1);
    } else {
      NoPower();
    }
  }

  lemma FirstDigit(a: nat, b: nat)
    ensures BitXor(a, b) / 2 == BitXor(a / 2, b / 2) && BitXor(a, b) % 2 == (a + b) % 2
  {
    var low := if a % 2 != b % 2 then 1 else 0;
    assert BitXor(a, b) == low + 2 * BitXor(a / 2, b / 2);
    hide BitXor;
    SumParity(a, b);
  }

  lemma SumParity(a: nat, b: nat)
    ensures (a + b) % 2 == if a % 2 != b % 2 then 1 else 0
  {
  }

  lemma NextPower(i: nat)
    ensures Pow2(i + 1) == 2 * Pow2(i)
  {
  }

  lemma NoPower()
    ensures Pow2(0) == 1
  {
  }

  lemma HalfFirst(x: nat, p: nat)
    requires p > 0
    ensures x / (2 * p) == x / 2 / p
  {
    var q, r := x / 2 / p, x / 2 % p;
    assert x / 2 == q * p + r;
    assert x == (2 * p) * q + (2 * r + x % 2);
    ModUnique(x, 2 * p, q, 2 * r + x % 2);
  }

  lemma {:induction false} BitXorSame(a: nat)
    ensures BitXor(a, a) == 0
  {
    if a > 0 { BitXorSame(a / 2); }
  }

  lemma {:induction false} BitXorCommutes(a: nat, b: nat)
    ensures BitXor(a, b) == BitXor(b, a)
    decreases a + b
  {
    if a != 0 || b != 0 { BitXorCommutes(a / 2, b / 2); }
  }

  lemma {:induction false} BitXorBound(a: nat, b: nat, n: nat)
    requires a < Pow2(n) && b < Pow2(n)
    ensures BitXor(a, b) < Pow2(n)
    decreases n
  {
    if n > 0 { BitXorBound(a / 2, b / 2, n - 1); }
  }

  function BitOr(a: nat, b: nat): nat
    decreases a + b
  {
    if a == 0 && b == 0 then 0 else (if a % 2 == 1 || b % 2 == 1 then 1 else 0) + 2 * BitOr(a / 2, b / 2)
  }

  lemma {:induction false} OrZero(a: nat)
    ensures BitOr(a, 0) == a
  {
    if a > 0 { OrZero(a / 2); }
  }

  // Where the digits of the two do not overlap, or is addition.
  lemma {:induction false} OrDisjoint(q: nat, k: nat, r: nat)
    requires r < Pow2(k)
    ensures BitOr(q * Pow2(k), r) == q * Pow2(k) + r
    decreases k
  {
    if k == 0 {
      OrZero(q);
    } else {
      var a := q * Pow2(k);
      assert a == 2 * (q * Pow2(k - 1));
      OrDisjoint(q, k - 1, r / 2);
    }
  }

  lemma {:induction false} Pow2Add(a: nat, b: nat)
    ensures Pow2(a + b) == Pow2(a) * Pow2(b)
  {
    if a > 0 { Pow2Add(a - 1, b); }
  }

  lemma WordSize()
    ensures Pow2(64) == WORD
  {
    assert Pow2(8) == 0x100;
    Pow2Add(8, 8);
    Pow2Add(16, 16);
    Pow2Add(32, 32);
  }

  function Xor(x: Word, y: Word): Word {
    WordSize();
    BitXorBound(x, y, 64);
    BitXor(x, y)
  }

  lemma XorBack(x: Word, y: Word)
    ensures Xor(Xor(x, y), y) == x
  {
    BitXorBack(x, y);
  }

  /** The exclusive or of two words, digit by digit; a word cancels itself, and the order of the
      two does not matter. */
  lemma XorDigits(x: Word, y: Word)
    ensures forall i: nat | i < 64 :: Xor(x, y) / Pow2(i) % 2 == (x / Pow2(i) + y / Pow2(i)) % 2
    ensures Xor(x, x) == 0 && Xor(x, y) == Xor(y, x)
  {
    forall i: nat | i < 64 ensures Xor(x, y) / Pow2(i) % 2 == (x / Pow2(i) + y / Pow2(i)) % 2 {
      BitXorDigit(x, y, i);
    }
    BitXorSame(x);
    BitXorCommutes(x, y);
  }

  // Digits u above l, where all of them fit p * q.
  lemma SplitBound(u: nat, l: nat, p: nat, q: nat)
    requires l < q
    ensures u * q + l < p * q <==> u < p
  {
    if u < p {
      assert u * q + q == (u + 1) * q;
      Ordered(u + 1, p, q);
    } else {
      Ordered(p, u, q);
    }
  }

  lemma Ordered(a: nat, b: nat, c: nat)
    requires a <= b
    ensures a * c <= b * c
  {
  }

  lemma Regroup(u: nat, q: nat, l: nat, p: nat)
    ensures (u * q + l) * p == u * (p * q) + l * p
  {
    assert (u * q + l) * p == (u * q) * p + l * p;
    assert (u * q) * p == u * (q * p);
  }

  // The numbers below p * q, rotated by the factor p.
  lemma RotSplit(x: nat, p: nat, q: nat)
    requires 0 < p && 0 < q && x < p * q
    ensures x / q < p && x * p % (p * q) == x % q * p
    ensures var y := x % q * p + x / q; y < p * q && y / p == x % q && y % p == x / q
  {
    var u, l := x / q, x % q;
    assert x == u * q + l;
    SplitBound(u, l, p, q);
    Regroup(u, q, l, p);
    SplitBound(l, u, q, p);
    SplitBound(l, 0, q, p);
    ModUnique(x * p, p * q, u, l * p);
    ModUnique(l * p + u, p, l, u);
  }

  // A rotation moves the upper k digits below the lower 64 - k.
  lemma RotParts(x: Word, k: nat)
    requires 0 < k < 64
    ensures var p, q := Pow2(k), Pow2(64 - k);
            && p * q == WORD && x / q < p
            && BitOr(x * p % WORD, x / q) == x % q * p + x / q < WORD
            && (x % q * p + x / q) / p == x % q && (x % q * p + x / q) % p == x / q
  {
    hide Pow2, BitOr;
    WordSize();
    Pow2Add(k, 64 - k);
    RotSplit(x, Pow2(k), Pow2(64 - k));
    OrDisjoint(x % Pow2(64 - k), k, x / Pow2(64 - k));
  }

  function Rot64(x: Word, k: nat): (y: Word)
    requires 0 < k < 64
  {
    RotParts(x, k);
    BitOr(x * Pow2(k) % WORD, x / Pow2(64 - k))
  }

  lemma RotIs(x: Word, k: nat)
    requires 0 < k < 64
    ensures var p, q := Pow2(k), Pow2(64 - k); Rot64(x, k) == x % q * p + x / q && Rot64(x, k) / p == x % q && Rot64(x, k) % p == x / q
  {
    hide Pow2, BitOr;
    RotParts(x, k);
  }

  lemma RotBack(x: Word, k: nat)
    requires 0 < k < 64
    ensures Rot64(Rot64(x, k), 64 - k) == x
  {
    hide Pow2, Rot64;
    RotIs(x, k);
    RotIs(Rot64(x, k), 64 - k);
    assert x == x / Pow2(64 - k) * Pow2(64 - k) + x % Pow2(64 - k);
  }
}
