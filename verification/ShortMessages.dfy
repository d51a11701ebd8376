/** The hash of a short message: the plain form, and the loop and switch of the source. */
module ShortMessages {
  import opened Bits
  import opened Words64
  import opened SpookyMixers

  type Byte = b: nat | b < 256

  type Message = seq<Byte>

  const SC_CONST: Word := 0xdead_b0ef_dead_beef

  // ---- Little-endian words ----

  function Little(bs: Message): (x: nat)
    ensures x < Pow2(8 * |bs|)
  {
    if bs == [] then 0
    else
      ByteMore(|bs| - 1);
      bs[0] + 256 * Little(bs[1..])
  }

  lemma ByteMore(n: nat)
    ensures Pow2(8 * (n + 1)) == 256 * Pow2(8 * n)
  {
    Pow2Add(8, 8 * n);
    assert Pow2(8) == 256;
  }

  lemma {:induction false} LittleConcat(a: Message, b: Message)
    ensures Little(a + b) == Little(a) + Pow2(8 * |a|) * Little(b)
  {
    if a == [] {
      assert a + b == b;
    } else {
      assert (a + b)[0] == a[0] && (a + b)[1..] == a[1..] + b;
      LittleConcat(a[1..], b);
      ByteMore(|a| - 1);
      Times256(Pow2(8 * (|a| - 1)), Little(b));
      hide Pow2;
    }
  }

  lemma Times256(p: nat, x: nat)
    ensures 256 * (p * x) == (256 * p) * x
  {
  }

  lemma LittleSnoc(a: Message, b: Byte)
    ensures Little(a + [b]) == Little(a) + Pow2(8 * |a|) * b
  {
    LittleConcat(a, [b]);
    assert [b][1..] == [];
    assert Little([b]) == b;
    hide Little, Pow2;
  }

  function Load64(m: Message, at: nat): Word
    requires at + 8 <= |m|
  {
    WordSize();
    Little(m[at..at + 8])
  }

  function Load32(m: Message, at: nat): Word
    requires at + 4 <= |m|
  {
    HalfSize();
    Little(m[at..at + 4])
  }

  lemma HalfSize()
    ensures Pow2(32) < WORD
  {
    WordSize();
    Pow2Add(32, 32);
  }

  // x << k
  function Shl(x: nat, k: nat): Word { x * Pow2(k) % WORD }

  function Zeros(n: nat): (z: Message)
    ensures |z| == n && forall i | 0 <= i < n :: z[i] == 0
  {
    seq(n, _ => 0)
  }

  lemma {:induction false} LittleZeros(n: nat)
    ensures Little(Zeros(n)) == 0
  {
    if n > 0 {
      assert Zeros(n)[1..] == Zeros(n - 1);
      LittleZeros(n - 1);
    }
  }

  lemma LittlePadded(a: Message, n: nat)
    ensures Little(a + Zeros(n)) == Little(a)
  {
    LittleConcat(a, Zeros(n));
    LittleZeros(n);
  }

  // ---- The plain form ----

  // Mixing in 16 bytes of m.
  function Half(q: Quad, m: Message, at: nat): Quad
    requires at + 16 <= |m|
  {
    ShortMix(q.(h2 := Plus(q.h2, Load64(m, at)), h3 := Plus(q.h3, Load64(m, at + 8))))
  }

  // Mixing in 32 bytes of m.
  function Chunk(q: Quad, m: Message, at: nat): Quad
    requires at + 32 <= |m|
  {
    var q := Half(q, m, at);
    q.(h0 := Plus(q.h0, Load64(m, at + 16)), h1 := Plus(q.h1, Load64(m, at + 24)))
  }

  /** How a set of 32 bytes goes in.  Its first two words are mixed into all four variables; the
      third then adds to the first variable, and the fourth to the second one. */
  lemma ChunkWords(q: Quad, m: Message, at: nat, m': Message, at': nat)
    requires at + 32 <= |m| && at' + 32 <= |m'|
    requires Load64(m, at) == Load64(m', at') && Load64(m, at + 8) == Load64(m', at' + 8)
    ensures var c, c' := Chunk(q, m, at), Chunk(q, m', at');
            && c.h2 == c'.h2 && c.h3 == c'.h3
            && Minus(c.h0, c'.h0) == Minus(Load64(m, at + 16), Load64(m', at' + 16))
            && Minus(c.h1, c'.h1) == Minus(Load64(m, at + 24), Load64(m', at' + 24))
            && (Load64(m, at + 16) == Load64(m', at' + 16) ==> c.h0 == c'.h0)
            && (Load64(m, at + 24) == Load64(m', at' + 24) ==> c.h1 == c'.h1)
  {
    hide ShortMix, Load64, Little;
    var h := Half(q, m, at);
    SameDistance(h.h0, Load64(m, at + 16), Load64(m', at' + 16));
    SameDistance(h.h1, Load64(m, at + 24), Load64(m', at' + 24));
    hide Plus, Minus;
  }

  lemma SameDistance(x: Word, y: Word, z: Word)
    ensures Minus(Plus(x, y), Plus(x, z)) == Minus(y, z)
  {
    assert Plus(x, y) == if x + y < WORD then x + y else x + y - WORD;
    assert Plus(x, z) == if x + z < WORD then x + z else x + z - WORD;
    hide Plus;
  }

  function Chunks(q: Quad, m: Message, n: nat): Quad
    requires 32 * n <= |m|
  {
    if n == 0 then q else Chunk(Chunks(q, m, n - 1), m, 32 * (n - 1))
  }

  // The last 0 to 15 bytes: padded with zeros to two words, the length in the top byte.
  function Tail(q: Quad, t: Message, length: nat): Quad
    requires |t| < 16
  {
    var d := Plus(q.h3, Shl(length, 56));
    if t == [] then q.(h2 := Plus(q.h2, SC_CONST), h3 := Plus(d, SC_CONST))
    else
      var p := t + Zeros(16 - |t|);
      q.(h2 := Plus(q.h2, Load64(p, 0)), h3 := Plus(d, Load64(p, 8)))
  }

  function Short(m: Message, seed1: Word, seed2: Word): (Word, Word) {
    var q := Chunks(Quad(seed1, seed2, SC_CONST, SC_CONST), m, |m| / 32);
    var at := 32 * (|m| / 32);
    var half := |m| - at >= 16;
    var q := if half then Half(q, m, at) else q;
    var at := if half then at + 16 else at;
    var q := ShortEnd(Tail(q, m[at..], |m|));
    (q.h0, q.h1)
  }

  // ---- The switch ----

  lemma PlusMore(x: Word, a: nat, b: nat)
    requires a < WORD && b < WORD && a + b < WORD
    ensures Plus(Plus(x, a), b) == Plus(x, a + b)
  {
  }

  // One byte shifted into place, on top of the bytes below it.
  lemma PlaceByte(m: Message, at: nat, n: nat)
    requires n < 8 && at + n < |m|
    ensures Shl(m[at + n], 8 * n) + Little(m[at..at + n]) == Little(m[at..at + n + 1]) < WORD
  {
    hide Little, Pow2;
    var a, b := m[at..at + n], m[at + n];
    assert m[at..at + n + 1] == a + [b];
    LittleSnoc(a, b);
    ByteFits(n);
    ByteMore(n);
    Scale(b, 255, Pow2(8 * n));
    SmallMod(b * Pow2(8 * n));
  }

  lemma SmallMod(x: nat)
    requires x < WORD
    ensures x % WORD == x
  {
  }

  lemma Scale(a: nat, b: nat, p: nat)
    requires a <= b
    ensures a * p <= b * p && p * a == a * p
  {
  }

  lemma ByteFits(n: nat)
    requires n < 8
    ensures Pow2(8 * (n + 1)) <= WORD
  {
    WordSize();
    Pow2Add(8 * (n + 1), 64 - 8 * (n + 1));
    AtLeastOne(Pow2(8 * (n + 1)), Pow2(64 - 8 * (n + 1)));
    hide Pow2;
  }

  lemma AtLeastOne(p: nat, q: nat)
    requires q > 0
    ensures p <= p * q
  {
  }

  // Four bytes and those above them, the uppermost first.
  lemma FromFour(x: Word, m: Message, at: nat, n: nat)
    requires 4 <= n < 8 && at + n <= |m|
    ensures Little(m[at..at + n]) < WORD
    ensures var x1 := if n >= 7 then Plus(x, Shl(m[at + 6], 48)) else x;
            var x2 := if n >= 6 then Plus(x1, Shl(m[at + 5], 40)) else x1;
            var x3 := if n >= 5 then Plus(x2, Shl(m[at + 4], 32)) else x2;
            Plus(x3, Load32(m, at)) == Plus(x, Little(m[at..at + n]))
  {
    hide Little, Pow2, Plus, Shl;
    HalfSize();
    var x1 := if n >= 7 then Plus(x, Shl(m[at + 6], 48)) else x;
    var x2 := if n >= 6 then Plus(x1, Shl(m[at + 5], 40)) else x1;
    if n >= 5 {
      PlaceByte(m, at, 4);
      PlusMore(x2, Shl(m[at + 4], 32), Load32(m, at));
    }
    if n >= 6 {
      PlaceByte(m, at, 5);
      PlusMore(x1, Shl(m[at + 5], 40), Little(m[at..at + 5]));
    }
    if n >= 7 {
      PlaceByte(m, at, 6);
      PlusMore(x, Shl(m[at + 6], 48), Little(m[at..at + 6]));
    }
  }

  // Up to three bytes.
  lemma UpToThree(x: Word, m: Message, at: nat, n: nat)
    requires 1 <= n < 4 && at + n <= |m|
    ensures Little(m[at..at + n]) < WORD
    ensures var x1 := if n >= 3 then Plus(x, Shl(m[at + 2], 16)) else x;
            var x2 := if n >= 2 then Plus(x1, Shl(m[at + 1], 8)) else x1;
            Plus(x2, m[at]) == Plus(x, Little(m[at..at + n]))
  {
    hide Little, Pow2, Plus, Shl;
    OneByte(m, at);
    var x1 := if n >= 3 then Plus(x, Shl(m[at + 2], 16)) else x;
    if n >= 2 {
      PlaceByte(m, at, 1);
      PlusMore(x1, Shl(m[at + 1], 8), m[at]);
    }
    if n >= 3 {
      PlaceByte(m, at, 2);
      PlusMore(x, Shl(m[at + 2], 16), Little(m[at..at + 2]));
    }
  }

  lemma OneByte(m: Message, at: nat)
    requires at < |m|
    ensures Little(m[at..at + 1]) == m[at]
  {
    assert m[at..at + 1] == [m[at]];
    assert [m[at]][1..] == [];
  }

  /** One to seven bytes of a word: the cases 7 to 4 and 3 to 1 of the switch, each falling
      through to the next.  Cases 15 to 12 and 11 to 9 are the same a word further on. */
  method AddPartial(x: Word, m: Message, at: nat, n: nat) returns (r: Word)
    requires 1 <= n < 8 && at + n <= |m|
    ensures Little(m[at..at + n]) < WORD && r == Plus(x, Little(m[at..at + n]))
  {
    hide *;
    r := x;
    if n >= 4 {
      FromFour(x, m, at, n);
      if n >= 7 {
        r := Plus(r, Shl(m[at + 6], 48));
      }
      if n >= 6 {
        r := Plus(r, Shl(m[at + 5], 40));
      }
      if n >= 5 {
        r := Plus(r, Shl(m[at + 4], 32));
      }
      r := Plus(r, Load32(m, at));
    } else {
      UpToThree(x, m, at, n);
      if n >= 3 {
        r := Plus(r, Shl(m[at + 2], 16));
      }
      if n >= 2 {
        r := Plus(r, Shl(m[at + 1], 8));
      }
      r := Plus(r, m[at]);
    }
  }

  lemma PaddedLong(t: Message)
    requires 8 <= |t| < 16
    ensures var p := t + Zeros(16 - |t|); Load64(p, 0) == Little(t[..8]) && Load64(p, 8) == Little(t[8..])
  {
    hide Little, Pow2, Zeros;
    var p := t + Zeros(16 - |t|);
    assert p[0..8] == t[..8];
    assert p[8..16] == t[8..] + Zeros(16 - |t|);
    LittlePadded(t[8..], 16 - |t|);
  }

  lemma PaddedShort(t: Message)
    requires 0 < |t| < 8
    ensures var p := t + Zeros(16 - |t|); Load64(p, 0) == Little(t) && Load64(p, 8) == 0
  {
    hide Little, Pow2, Zeros;
    var p := t + Zeros(16 - |t|);
    assert p[0..8] == t + Zeros(8 - |t|);
    assert p[8..16] == Zeros(8);
    LittlePadded(t, 8 - |t|);
    LittleZeros(8);
  }

  lemma PlusZero(x: Word)
    ensures Plus(x, 0) == x
  {
  }

  method AddTail(c: Word, d: Word, m: Message, at: nat) returns (c': Word, d': Word)
    requires at <= |m| < at + 16
    ensures Quad(0, 0, c', d') == Tail(Quad(0, 0, c, d), m[at..], |m|)
  {
    hide Little, Plus, Shl, Pow2, Zeros;
    var remainder := |m| - at;
    c', d' := c, Plus(d, Shl(|m|, 56));
    PlusZero(d');
    if remainder >= 8 {
      PaddedLong(m[at..]);
      assert m[at..][..8] == m[at..at + 8] && m[at..][8..] == m[at + 8..at + remainder];
      if remainder > 8 {
        d' := AddPartial(d', m, at + 8, remainder - 8);
      } else {
        NoBytes(m[at..][8..]);
      }
      c' := Plus(c', Load64(m, at));
    } else if remainder > 0 {
      PaddedShort(m[at..]);
      assert m[at..] == m[at..at + remainder];
      c' := AddPartial(c', m, at, remainder);
    } else {
      c' := Plus(c', SC_CONST);
      d' := Plus(d', SC_CONST);
    }
  }

  lemma NoBytes(m: Message)
    requires m == []
    ensures Little(m) == 0
  {
  }
}
