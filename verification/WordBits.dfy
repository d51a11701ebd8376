/** Words as bit-vectors, whose operations are easy to work out: exclusive or and rotation of
    words that are given as numbers. */
module WordBits {
  import opened Bits
  import opened Words64

  type Octet = b: nat | b < 256

  function Bit(v: bv64): (b: nat)
    ensures b < 2
  {
    if v & 1 != 0 then 1 else 0
  }

  function Upper(v: bv64): bv64 { v >> 1 }

  // The last n bits of v as a number.
  function Value(v: bv64, n: nat): nat {
    if n == 0 then 0 else Bit(v) + 2 * Value(Upper(v), n - 1)
  }

  lemma BitsNext(v: bv64, n: nat)
    ensures Value(v, n + 1) == Bit(v) + 2 * Value(Upper(v), n)
  {
    hide Bit, Upper;
  }

  lemma NoBits(v: bv64)
    ensures Value(v, 0) == 0
  {
  }

  function XorOf(v: bv64, u: bv64): bv64 { v ^ u }

  lemma XorUpper(v: bv64, u: bv64)
    ensures XorOf(Upper(v), Upper(u)) == Upper(XorOf(v, u))
  {
  }

  lemma XorBit(v: bv64, u: bv64)
    ensures Bit(XorOf(v, u)) == if Bit(v) != Bit(u) then 1 else 0
  {
  }

  lemma NoDigits()
    ensures BitXor(0, 0) == 0
  {
  }

  lemma XorNext(d: nat, e: nat, a: nat, b: nat)
    requires d < 2 && e < 2
    ensures BitXor(d + 2 * a, e + 2 * b) == (if d != e then 1 else 0) + 2 * BitXor(a, b)
  {
    hide BitXor;
    FirstDigit(d + 2 * a, e + 2 * b);
    SumParity(d + 2 * a, e + 2 * b);
  }

  lemma {:induction false} XorBits(v: bv64, u: bv64, n: nat)
    ensures BitXor(Value(v, n), Value(u, n)) == Value(XorOf(v, u), n)
    decreases n
  {
    hide *;
    if n > 0 {
      XorBits(Upper(v), Upper(u), n - 1);
      XorUpper(v, u);
      BitsNext(v, n - 1);
      BitsNext(u, n - 1);
      BitsNext(XorOf(v, u), n - 1);
      XorBit(v, u);
      XorNext(Bit(v), Bit(u), Value(Upper(v), n - 1), Value(Upper(u), n - 1));
    } else {
      NoBits(v);
      NoBits(u);
      NoBits(XorOf(v, u));
      NoDigits();
    }
  }

  // The last byte of v.
  function ByteOf(v: bv64): (b: Octet) {
    (if v & 0x01 != 0 then 1 else 0) + (if v & 0x02 != 0 then 2 else 0)
    + (if v & 0x04 != 0 then 4 else 0) + (if v & 0x08 != 0 then 8 else 0)
    + (if v & 0x10 != 0 then 16 else 0) + (if v & 0x20 != 0 then 32 else 0)
    + (if v & 0x40 != 0 then 64 else 0) + (if v & 0x80 != 0 then 128 else 0)
  }

  function Rest(v: bv64): bv64 { v >> 8 }

  lemma ByteIs(v: bv64)
    ensures var v1 := Upper(v); var v2 := Upper(v1); var v3 := Upper(v2); var v4 := Upper(v3);
            var v5 := Upper(v4); var v6 := Upper(v5); var v7 := Upper(v6);
            && ByteOf(v) == Bit(v) + 2 * Bit(v1) + 4 * Bit(v2) + 8 * Bit(v3)
                            + 16 * Bit(v4) + 32 * Bit(v5) + 64 * Bit(v6) + 128 * Bit(v7)
            && Upper(v7) == Rest(v)
  {
  }

  lemma NextByte(v: bv64, n: nat)
    ensures Value(v, n + 8) == ByteOf(v) + 256 * Value(Rest(v), n)
  {
    hide *;
    var v1 := Upper(v);
    var v2 := Upper(v1);
    var v3 := Upper(v2);
    var v4 := Upper(v3);
    var v5 := Upper(v4);
    var v6 := Upper(v5);
    var v7 := Upper(v6);
    ByteIs(v);
    BitsNext(v7, n);
    BitsNext(v6, n + 1);
    BitsNext(v5, n + 2);
    BitsNext(v4, n + 3);
    BitsNext(v3, n + 4);
    BitsNext(v2, n + 5);
    BitsNext(v1, n + 6);
    BitsNext(v, n + 7);
  }

  // The number of eight bytes, the last one first.
  function Joined(b0: Octet, b1: Octet, b2: Octet, b3: Octet, b4: Octet, b5: Octet, b6: Octet, b7: Octet): Word {
    b0 + 0x100 * b1 + 0x1_0000 * b2 + 0x100_0000 * b3
    + 0x1_0000_0000 * b4 + 0x100_0000_0000 * b5 + 0x1_0000_0000_0000 * b6 + 0x100_0000_0000_0000 * b7
  }

  // The word of the bits of v.
  function N(v: bv64): Word {
    Joined(ByteOf(v), ByteOf(v >> 8), ByteOf(v >> 16), ByteOf(v >> 24),
           ByteOf(v >> 32), ByteOf(v >> 40), ByteOf(v >> 48), ByteOf(v >> 56))
  }

  lemma Rests(v: bv64)
    ensures Rest(v) == v >> 8 && Rest(v >> 8) == v >> 16 && Rest(v >> 16) == v >> 24 && Rest(v >> 24) == v >> 32
    ensures Rest(v >> 32) == v >> 40 && Rest(v >> 40) == v >> 48 && Rest(v >> 48) == v >> 56
  {
  }

  lemma NIs(v: bv64)
    ensures N(v) == Value(v, 64)
  {
    Rests(v);
    hide ByteOf, Value, Rest;
    NoBits(Rest(v >> 56));
    NextByte(v >> 56, 0);
    NextByte(v >> 48, 8);
    NextByte(v >> 40, 16);
    NextByte(v >> 32, 24);
    NextByte(v >> 24, 32);
    NextByte(v >> 16, 40);
    NextByte(v >> 8, 48);
    NextByte(v, 56);
  }

  lemma XorN(v: bv64, u: bv64)
    ensures Xor(N(v), N(u)) == N(v ^ u)
  {
    hide N, Value, BitXor;
    NIs(v);
    NIs(u);
    NIs(v ^ u);
    XorBits(v, u, 64);
  }

  // 2^n, for n below 64.
  function P(n: nat): (p: nat)
    ensures p > 0
  {
    match n
    case 0 => 0x1 case 1 => 0x2 case 2 => 0x4 case 3 => 0x8
    case 4 => 0x10 case 5 => 0x20 case 6 => 0x40 case 7 => 0x80
    case 8 => 0x100 case 9 => 0x200 case 10 => 0x400 case 11 => 0x800
    case 12 => 0x1000 case 13 => 0x2000 case 14 => 0x4000 case 15 => 0x8000
    case 16 => 0x10000 case 17 => 0x20000 case 18 => 0x40000 case 19 => 0x80000
    case 20 => 0x100000 case 21 => 0x200000 case 22 => 0x400000 case 23 => 0x800000
    case 24 => 0x1000000 case 25 => 0x2000000 case 26 => 0x4000000 case 27 => 0x8000000
    case 28 => 0x10000000 case 29 => 0x20000000 case 30 => 0x40000000 case 31 => 0x80000000
    case 32 => 0x100000000 case 33 => 0x200000000 case 34 => 0x400000000 case 35 => 0x800000000
    case 36 => 0x1000000000 case 37 => 0x2000000000 case 38 => 0x4000000000 case 39 => 0x8000000000
    case 40 => 0x10000000000 case 41 => 0x20000000000 case 42 => 0x40000000000 case 43 => 0x80000000000
    case 44 => 0x100000000000 case 45 => 0x200000000000 case 46 => 0x400000000000 case 47 => 0x800000000000
    case 48 => 0x1000000000000 case 49 => 0x2000000000000 case 50 => 0x4000000000000 case 51 => 0x8000000000000
    case 52 => 0x10000000000000 case 53 => 0x20000000000000 case 54 => 0x40000000000000 case 55 => 0x80000000000000
    case 56 => 0x100000000000000 case 57 => 0x200000000000000 case 58 => 0x400000000000000 case 59 => 0x800000000000000
    case 60 => 0x1000000000000000 case 61 => 0x2000000000000000 case 62 => 0x4000000000000000 case 63 => 0x8000000000000000
    case _ => 1
  }

  lemma PNext(n: nat)
    requires n < 63
    ensures P(n + 1) == 2 * P(n)
  {
  }

  lemma {:induction false} PIs(n: nat)
    requires n < 64
    ensures P(n) == Pow2(n)
  {
    hide P;
    if n > 0 {
      PIs(n - 1);
      PNext(n - 1);
    } else {
      PNone();
    }
  }

  lemma PNone()
    ensures P(0) == 1
  {
  }

  function Turned(x: nat, p: nat, q: nat): nat
    requires q > 0
  {
    x % q * p + x / q
  }

  // The rotation of v, as a number.
  function RotOf(v: bv64, k: nat): nat
    requires 0 < k < 64
  {
    Turned(N(v), P(k), P(64 - k))
  }

  lemma RotOfIs(v: bv64, k: nat)
    requires 0 < k < 64
    ensures Rot64(N(v), k) == RotOf(v, k)
  {
    hide N, P, Pow2, Rot64;
    PIs(k);
    PIs(64 - k);
    RotIs(N(v), k);
  }
}
