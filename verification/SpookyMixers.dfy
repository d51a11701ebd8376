/** The mixing functions of SpookyHash and their inverses.  The twelve variables form a ring:
    row i of a mixer does to the ring seen from h_i what row 0 does to it seen from h_0.  So a
    mixer is twelve times a row on the first few words followed by a turn of the ring. */
module SpookyMixers {
  import opened Words64

  datatype Ring = Ring(h0: Word, h1: Word, h2: Word, h3: Word, h4: Word, h5: Word,
                       h6: Word, h7: Word, h8: Word, h9: Word, h10: Word, h11: Word)

  function Turn(r: Ring): Ring {
    Ring(r.h1, r.h2, r.h3, r.h4, r.h5, r.h6, r.h7, r.h8, r.h9, r.h10, r.h11, r.h0)
  }

  function Unturn(r: Ring): Ring {
    Ring(r.h11, r.h0, r.h1, r.h2, r.h3, r.h4, r.h5, r.h6, r.h7, r.h8, r.h9, r.h10)
  }

  type Block = b: seq<Word> | |b| == 12 witness seq(12, _ => 0)

  // ---- Mix ----

  function MixRot(i: nat): (k: nat)
    requires i < 12
    ensures 0 < k < 64
  {
    [11, 32, 43, 31, 17, 28, 39, 57, 55, 54, 22, 46][i]
  }

  // Row 0, taking in word d of the block.
  function MixRow(r: Ring, d: Word, k: nat): Ring
    requires 0 < k < 64
  {
    var h0 := Plus(r.h0, d);
    r.(h0 := Rot64(h0, k), h2 := Xor(r.h2, r.h10), h11 := Plus(Xor(r.h11, h0), r.h1))
  }

  function UnmixRow(r: Ring, d: Word, k: nat): Ring
    requires 0 < k < 64
  {
    var h0 := Rot64(r.h0, 64 - k);
    r.(h0 := Minus(h0, d), h2 := Xor(r.h2, r.h10), h11 := Xor(Minus(r.h11, r.h1), h0))
  }

  lemma MixRowBack(r: Ring, d: Word, k: nat)
    requires 0 < k < 64
    ensures UnmixRow(MixRow(r, d, k), d, k) == r == MixRow(UnmixRow(r, d, k), d, k)
  {
    hide Plus, Minus, Xor, Rot64;
    var h0, h0' := Plus(r.h0, d), Rot64(r.h0, 64 - k);
    PlusBack(r.h0, d);
    RotBack(h0, k);
    RotBack(r.h0, 64 - k);
    PlusBack(h0', d);
    XorBack(r.h2, r.h10);
    XorBack(r.h11, h0);
    PlusBack(Xor(r.h11, h0), r.h1);
    XorBack(Minus(r.h11, r.h1), h0');
    PlusBack(r.h11, r.h1);
  }

  // The first n rows.
  function MixRows(b: Block, r: Ring, n: nat): Ring
    requires n <= 12
  {
    if n == 0 then r else Turn(MixRow(MixRows(b, r, n - 1), b[n - 1], MixRot(n - 1)))
  }

  function Mix(b: Block, r: Ring): Ring { MixRows(b, r, 12) }

  // The first n rows undone, the last of them first.
  function UnmixRows(b: Block, r: Ring, n: nat): Ring
    requires n <= 12
    decreases n
  {
    if n == 0 then r else UnmixRows(b, UnmixRow(Unturn(r), b[n - 1], MixRot(n - 1)), n - 1)
  }

  function Unmix(b: Block, r: Ring): Ring { UnmixRows(b, r, 12) }

  lemma {:induction false} MixRowsBack(b: Block, r: Ring, n: nat)
    requires n <= 12
    ensures UnmixRows(b, MixRows(b, r, n), n) == r == MixRows(b, UnmixRows(b, r, n), n)
    decreases n
  {
    hide MixRow, UnmixRow, MixRot;
    if n > 0 {
      var d, k, u := b[n - 1], MixRot(n - 1), UnmixRow(Unturn(r), b[n - 1], MixRot(n - 1));
      MixRowsBack(b, r, n - 1);
      MixRowBack(MixRows(b, r, n - 1), d, k);
      MixRowsBack(b, u, n - 1);
      MixRowBack(Unturn(r), d, k);
    }
  }

  /** For every block, mixing it in is a permutation of the twelve variables. */
  lemma MixBack(b: Block, r: Ring)
    ensures Unmix(b, Mix(b, r)) == r == Mix(b, Unmix(b, r))
  {
    MixRowsBack(b, r, 12);
  }

  // ---- EndPartial ----

  function EndRot(i: nat): (k: nat)
    requires i < 12
    ensures 0 < k < 64
  {
    [44, 15, 34, 21, 38, 33, 10, 13, 38, 53, 42, 54][i]
  }

  function EndRow(r: Ring, k: nat): Ring
    requires 0 < k < 64
  {
    var h11 := Plus(r.h11, r.h1);
    r.(h11 := h11, h2 := Xor(r.h2, h11), h1 := Rot64(r.h1, k))
  }

  function UnendRow(r: Ring, k: nat): Ring
    requires 0 < k < 64
  {
    var h1 := Rot64(r.h1, 64 - k);
    r.(h1 := h1, h2 := Xor(r.h2, r.h11), h11 := Minus(r.h11, h1))
  }

  lemma EndRowBack(r: Ring, k: nat)
    requires 0 < k < 64
    ensures UnendRow(EndRow(r, k), k) == r == EndRow(UnendRow(r, k), k)
  {
    hide Plus, Minus, Xor, Rot64;
    PlusBack(r.h11, r.h1);
    PlusBack(r.h11, Rot64(r.h1, 64 - k));
    XorBack(r.h2, Plus(r.h11, r.h1));
    XorBack(r.h2, r.h11);
    RotBack(r.h1, k);
    RotBack(r.h1, 64 - k);
  }

  function EndRows(r: Ring, n: nat): Ring
    requires n <= 12
  {
    if n == 0 then r else Turn(EndRow(EndRows(r, n - 1), EndRot(n - 1)))
  }

  function EndPartial(r: Ring): Ring { EndRows(r, 12) }

  function UnendRows(r: Ring, n: nat): Ring
    requires n <= 12
    decreases n
  {
    if n == 0 then r else UnendRows(UnendRow(Unturn(r), EndRot(n - 1)), n - 1)
  }

  function UnendPartial(r: Ring): Ring { UnendRows(r, 12) }

  lemma {:induction false} EndRowsBack(r: Ring, n: nat)
    requires n <= 12
    ensures UnendRows(EndRows(r, n), n) == r == EndRows(UnendRows(r, n), n)
    decreases n
  {
    hide EndRow, UnendRow, EndRot;
    if n > 0 {
      var k, u := EndRot(n - 1), UnendRow(Unturn(r), EndRot(n - 1));
      EndRowsBack(r, n - 1);
      EndRowBack(EndRows(r, n - 1), k);
      EndRowsBack(u, n - 1);
      EndRowBack(Unturn(r), k);
    }
  }

  /** The final mixing is a permutation of the twelve variables. */
  lemma EndPartialBack(r: Ring)
    ensures UnendPartial(EndPartial(r)) == r == EndPartial(UnendPartial(r))
  {
    EndRowsBack(r, 12);
  }

  // spooky_End: the last block goes in by addition, and is mixed three times.
  function End(b: Block, r: Ring): Ring {
    EndPartial(EndPartial(EndPartial(AddBlock(b, r))))
  }

  function AddBlock(b: Block, r: Ring): Ring {
    Ring(Plus(r.h0, b[0]), Plus(r.h1, b[1]), Plus(r.h2, b[2]), Plus(r.h3, b[3]),
         Plus(r.h4, b[4]), Plus(r.h5, b[5]), Plus(r.h6, b[6]), Plus(r.h7, b[7]),
         Plus(r.h8, b[8]), Plus(r.h9, b[9]), Plus(r.h10, b[10]), Plus(r.h11, b[11]))
  }

  // ---- ShortMix ----

  datatype Quad = Quad(h0: Word, h1: Word, h2: Word, h3: Word)

  function Turn4(q: Quad): Quad { Quad(q.h1, q.h2, q.h3, q.h0) }

  function Unturn4(q: Quad): Quad { Quad(q.h3, q.h0, q.h1, q.h2) }

  function ShortRot(i: nat): (k: nat)
    requires i < 12
    ensures 0 < k < 64
  {
    [50, 52, 30, 41, 54, 48, 38, 37, 62, 34, 5, 36][i]
  }

  function ShortRow(q: Quad, k: nat): Quad
    requires 0 < k < 64
  {
    var h2 := Plus(Rot64(q.h2, k), q.h3);
    q.(h2 := h2, h0 := Xor(q.h0, h2))
  }

  function UnshortRow(q: Quad, k: nat): Quad
    requires 0 < k < 64
  {
    q.(h0 := Xor(q.h0, q.h2), h2 := Rot64(Minus(q.h2, q.h3), 64 - k))
  }

  lemma ShortRowBack(q: Quad, k: nat)
    requires 0 < k < 64
    ensures UnshortRow(ShortRow(q, k), k) == q == ShortRow(UnshortRow(q, k), k)
  {
    hide Plus, Minus, Xor, Rot64;
    RotBack(q.h2, k);
    RotBack(Minus(q.h2, q.h3), 64 - k);
    PlusBack(Rot64(q.h2, k), q.h3);
    PlusBack(q.h2, q.h3);
    XorBack(q.h0, Plus(Rot64(q.h2, k), q.h3));
    XorBack(q.h0, q.h2);
  }

  function ShortRows(q: Quad, n: nat): Quad
    requires n <= 12
  {
    if n == 0 then q else Turn4(ShortRow(ShortRows(q, n - 1), ShortRot(n - 1)))
  }

  function ShortMix(q: Quad): Quad { ShortRows(q, 12) }

  function UnshortRows(q: Quad, n: nat): Quad
    requires n <= 12
    decreases n
  {
    if n == 0 then q else UnshortRows(UnshortRow(Unturn4(q), ShortRot(n - 1)), n - 1)
  }

  function UnshortMix(q: Quad): Quad { UnshortRows(q, 12) }

  lemma {:induction false} ShortRowsBack(q: Quad, n: nat)
    requires n <= 12
    ensures UnshortRows(ShortRows(q, n), n) == q == ShortRows(UnshortRows(q, n), n)
    decreases n
  {
    hide ShortRow, UnshortRow, ShortRot;
    if n > 0 {
      var k, u := ShortRot(n - 1), UnshortRow(Unturn4(q), ShortRot(n - 1));
      ShortRowsBack(q, n - 1);
      ShortRowBack(ShortRows(q, n - 1), k);
      ShortRowsBack(u, n - 1);
      ShortRowBack(Unturn4(q), k);
    }
  }

  /** The mixing of short messages is a permutation of its four variables. */
  lemma ShortMixBack(q: Quad)
    ensures UnshortMix(ShortMix(q)) == q == ShortMix(UnshortMix(q))
  {
    ShortRowsBack(q, 12);
  }

  // ---- ShortEnd ----

  function ShortEndRot(i: nat): (k: nat)
    requires i < 11
    ensures 0 < k < 64
  {
    [15, 52, 26, 51, 28, 9, 47, 54, 32, 25, 63][i]
  }

  function ShortEndRow(q: Quad, k: nat): Quad
    requires 0 < k < 64
  {
    var h2 := Rot64(q.h2, k);
    q.(h2 := h2, h3 := Plus(Xor(q.h3, q.h2), h2))
  }

  // Eleven rows leave the ring one turn short of where it started.
  function ShortEndRows(q: Quad, n: nat): Quad
    requires n <= 11
  {
    if n == 0 then q else Turn4(ShortEndRow(ShortEndRows(q, n - 1), ShortEndRot(n - 1)))
  }

  function ShortEnd(q: Quad): Quad { Turn4(ShortEndRows(q, 11)) }
}
