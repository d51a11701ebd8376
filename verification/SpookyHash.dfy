/** SpookyHash on arrays and state structures, as the source runs it. */
module SpookyHash {
  import opened Words64
  import opened SpookyMixers
  import opened ShortMessages

  // The word j places on from i in a ring of twelve.
  function Ix(i: nat, j: nat): (r: nat)
    requires i <= 12 && j < 12
    ensures r < 12
  {
    if i + j < 12 then i + j else i + j - 12
  }

  // The variables h0, ..., h11 as a ring seen from number i.
  function Seen(h: seq<Word>, i: nat): Ring
    requires |h| == 12 && i <= 12
  {
    Ring(h[Ix(i, 0)], h[Ix(i, 1)], h[Ix(i, 2)], h[Ix(i, 3)], h[Ix(i, 4)], h[Ix(i, 5)],
         h[Ix(i, 6)], h[Ix(i, 7)], h[Ix(i, 8)], h[Ix(i, 9)], h[Ix(i, 10)], h[Ix(i, 11)])
  }

  // Writing variable j places on from i, as the ring seen from i shows it.
  lemma SeenSet(h: seq<Word>, i: nat, x: Word)
    requires |h| == 12 && i < 12
    ensures Seen(h, i).h0 == h[i] && Seen(h, i).h1 == h[Ix(i, 1)] && Seen(h, i).h2 == h[Ix(i, 2)]
    ensures Seen(h, i).h10 == h[Ix(i, 10)] && Seen(h, i).h11 == h[Ix(i, 11)]
    ensures Seen(h[i := x], i) == Seen(h, i).(h0 := x)
    ensures Seen(h[Ix(i, 1) := x], i) == Seen(h, i).(h1 := x)
    ensures Seen(h[Ix(i, 2) := x], i) == Seen(h, i).(h2 := x)
    ensures Seen(h[Ix(i, 11) := x], i) == Seen(h, i).(h11 := x)
  {
  }

  lemma SeenNext(h: seq<Word>, i: nat)
    requires |h| == 12 && i < 12
    ensures Seen(h, i + 1) == Turn(Seen(h, i))
  {
  }

  // Writing one element of an array, as a sequence.
  method Write(h: array<Word>, at: nat, x: Word)
    requires at < h.Length
    modifies h
    ensures h[..] == old(h[..])[at := x]
  {
    h[at] := x;
  }

  // ---- Mix ----

  // One line of spooky_Mix.
  method MixLine(h: array<Word>, d: Word, i: nat, k: nat)
    requires h.Length == 12 && i < 12 && 0 < k < 64
    modifies h
    ensures Seen(h[..], i + 1) == Turn(MixRow(Seen(old(h[..]), i), d, k))
  {
    hide Plus, Xor, Rot64, Seen, Ix;
    var s2, s10, s11, s1 := Ix(i, 2), Ix(i, 10), Ix(i, 11), Ix(i, 1);
    SeenSet(h[..], i, Plus(h[i], d));
    Write(h, i, Plus(h[i], d));
    SeenSet(h[..], i, Xor(h[s2], h[s10]));
    Write(h, s2, Xor(h[s2], h[s10]));
    SeenSet(h[..], i, Xor(h[s11], h[i]));
    Write(h, s11, Xor(h[s11], h[i]));
    SeenSet(h[..], i, Rot64(h[i], k));
    Write(h, i, Rot64(h[i], k));
    SeenSet(h[..], i, Plus(h[s11], h[s1]));
    Write(h, s11, Plus(h[s11], h[s1]));
    SeenNext(h[..], i);
  }

  lemma WholeTurn(h: seq<Word>)
    requires |h| == 12
    ensures Seen(h, 12) == Seen(h, 0)
  {
  }

  lemma MixLines(b: Block, r: Ring)
    ensures MixRows(b, r, 0) == r
    ensures forall n: nat | n < 12 :: MixRows(b, r, n + 1) == Turn(MixRow(MixRows(b, r, n), b[n], MixRot(n)))
    ensures [MixRot(0), MixRot(1), MixRot(2), MixRot(3), MixRot(4), MixRot(5)] == [11, 32, 43, 31, 17, 28]
    ensures [MixRot(6), MixRot(7), MixRot(8), MixRot(9), MixRot(10), MixRot(11)] == [39, 57, 55, 54, 22, 46]
  {
    hide MixRow;
  }

  method SpookyMix(b: Block, h: array<Word>)
    requires h.Length == 12
    modifies h
    ensures Seen(h[..], 0) == Mix(b, Seen(old(h[..]), 0))
  {
    hide MixRow, MixRows, MixRot, Seen;
    MixLines(b, Seen(h[..], 0));
    MixLine(h, b[0], 0, 11);
    MixLine(h, b[1], 1, 32);
    MixLine(h, b[2], 2, 43);
    MixLine(h, b[3], 3, 31);
    MixLine(h, b[4], 4, 17);
    MixLine(h, b[5], 5, 28);
    MixLine(h, b[6], 6, 39);
    MixLine(h, b[7], 7, 57);
    MixLine(h, b[8], 8, 55);
    MixLine(h, b[9], 9, 54);
    MixLine(h, b[10], 10, 22);
    MixLine(h, b[11], 11, 46);
    WholeTurn(h[..]);
  }

  // ---- EndPartial and End ----

  // One line of spooky_EndPartial.
  method EndLine(h: array<Word>, i: nat, k: nat)
    requires h.Length == 12 && i < 12 && 0 < k < 64
    modifies h
    ensures Seen(h[..], i + 1) == Turn(EndRow(Seen(old(h[..]), i), k))
  {
    hide Plus, Xor, Rot64, Seen, Ix;
    var s11, s1, s2 := Ix(i, 11), Ix(i, 1), Ix(i, 2);
    SeenSet(h[..], i, Plus(h[s11], h[s1]));
    Write(h, s11, Plus(h[s11], h[s1]));
    SeenSet(h[..], i, Xor(h[s2], h[s11]));
    Write(h, s2, Xor(h[s2], h[s11]));
    SeenSet(h[..], i, Rot64(h[s1], k));
    Write(h, s1, Rot64(h[s1], k));
    SeenNext(h[..], i);
  }

  lemma EndLines(r: Ring)
    ensures EndRows(r, 0) == r
    ensures forall n: nat | n < 12 :: EndRows(r, n + 1) == Turn(EndRow(EndRows(r, n), EndRot(n)))
    ensures [EndRot(0), EndRot(1), EndRot(2), EndRot(3), EndRot(4), EndRot(5)] == [44, 15, 34, 21, 38, 33]
    ensures [EndRot(6), EndRot(7), EndRot(8), EndRot(9), EndRot(10), EndRot(11)] == [10, 13, 38, 53, 42, 54]
  {
    hide EndRow;
  }

  method SpookyEndPartial(h: array<Word>)
    requires h.Length == 12
    modifies h
    ensures Seen(h[..], 0) == EndPartial(Seen(old(h[..]), 0))
  {
    hide EndRow, EndRows, EndRot, Seen;
    EndLines(Seen(h[..], 0));
    EndLine(h, 0, 44);
    EndLine(h, 1, 15);
    EndLine(h, 2, 34);
    EndLine(h, 3, 21);
    EndLine(h, 4, 38);
    EndLine(h, 5, 33);
    EndLine(h, 6, 10);
    EndLine(h, 7, 13);
    EndLine(h, 8, 38);
    EndLine(h, 9, 53);
    EndLine(h, 10, 42);
    EndLine(h, 11, 54);
    WholeTurn(h[..]);
  }

  method SpookyEnd(b: Block, h: array<Word>)
    requires h.Length == 12
    modifies h
    ensures Seen(h[..], 0) == End(b, Seen(old(h[..]), 0))
  {
    hide EndPartial, Plus;
    h[0], h[1], h[2], h[3] := Plus(h[0], b[0]), Plus(h[1], b[1]), Plus(h[2], b[2]), Plus(h[3], b[3]);
    h[4], h[5], h[6], h[7] := Plus(h[4], b[4]), Plus(h[5], b[5]), Plus(h[6], b[6]), Plus(h[7], b[7]);
    h[8], h[9], h[10], h[11] := Plus(h[8], b[8]), Plus(h[9], b[9]), Plus(h[10], b[10]), Plus(h[11], b[11]);
    assert Seen(h[..], 0) == AddBlock(b, Seen(old(h[..]), 0));
    SpookyEndPartial(h);
    SpookyEndPartial(h);
    SpookyEndPartial(h);
  }

  // ---- Short messages ----

  lemma ShortLines(q: Quad)
    ensures ShortRows(q, 0) == q
    ensures forall n: nat | n < 12 :: ShortRows(q, n + 1) == Turn4(ShortRow(ShortRows(q, n), ShortRot(n)))
    ensures [ShortRot(0), ShortRot(1), ShortRot(2), ShortRot(3), ShortRot(4), ShortRot(5)] == [50, 52, 30, 41, 54, 48]
    ensures [ShortRot(6), ShortRot(7), ShortRot(8), ShortRot(9), ShortRot(10), ShortRot(11)] == [38, 37, 62, 34, 5, 36]
  {
    hide ShortRow;
  }

  method SpookyShortMix(a: Word, b: Word, c: Word, d: Word) returns (h0: Word, h1: Word, h2: Word, h3: Word)
    ensures Quad(h0, h1, h2, h3) == ShortMix(Quad(a, b, c, d))
  {
    hide ShortRows, ShortRot, Plus, Xor, Rot64;
    ShortLines(Quad(a, b, c, d));
    h0, h1, h2, h3 := a, b, c, d;
    h2 := Rot64(h2, 50);  h2 := Plus(h2, h3);  h0 := Xor(h0, h2);
    h3 := Rot64(h3, 52);  h3 := Plus(h3, h0);  h1 := Xor(h1, h3);
    h0 := Rot64(h0, 30);  h0 := Plus(h0, h1);  h2 := Xor(h2, h0);
    h1 := Rot64(h1, 41);  h1 := Plus(h1, h2);  h3 := Xor(h3, h1);
    h2 := Rot64(h2, 54);  h2 := Plus(h2, h3);  h0 := Xor(h0, h2);
    h3 := Rot64(h3, 48);  h3 := Plus(h3, h0);  h1 := Xor(h1, h3);
    h0 := Rot64(h0, 38);  h0 := Plus(h0, h1);  h2 := Xor(h2, h0);
    h1 := Rot64(h1, 37);  h1 := Plus(h1, h2);  h3 := Xor(h3, h1);
    h2 := Rot64(h2, 62);  h2 := Plus(h2, h3);  h0 := Xor(h0, h2);
    h3 := Rot64(h3, 34);  h3 := Plus(h3, h0);  h1 := Xor(h1, h3);
    h0 := Rot64(h0, 5);  h0 := Plus(h0, h1);  h2 := Xor(h2, h0);
    h1 := Rot64(h1, 36);  h1 := Plus(h1, h2);  h3 := Xor(h3, h1);
  }

  lemma ShortEndLines(q: Quad)
    ensures ShortEndRows(q, 0) == q
    ensures forall n: nat | n < 11 :: ShortEndRows(q, n + 1) == Turn4(ShortEndRow(ShortEndRows(q, n), ShortEndRot(n)))
    ensures [ShortEndRot(0), ShortEndRot(1), ShortEndRot(2), ShortEndRot(3), ShortEndRot(4)] == [15, 52, 26, 51, 28]
    ensures [ShortEndRot(5), ShortEndRot(6), ShortEndRot(7), ShortEndRot(8), ShortEndRot(9)] == [9, 47, 54, 32, 25]
    ensures ShortEndRot(10) == 63
  {
    hide ShortEndRow;
  }

  method SpookyShortEnd(a: Word, b: Word, c: Word, d: Word) returns (h0: Word, h1: Word, h2: Word, h3: Word)
    ensures Quad(h0, h1, h2, h3) == ShortEnd(Quad(a, b, c, d))
  {
    hide ShortEndRows, ShortEndRot, Plus, Xor, Rot64;
    ShortEndLines(Quad(a, b, c, d));
    h0, h1, h2, h3 := a, b, c, d;
    h3 := Xor(h3, h2);  h2 := Rot64(h2, 15);  h3 := Plus(h3, h2);
    h0 := Xor(h0, h3);  h3 := Rot64(h3, 52);  h0 := Plus(h0, h3);
    h1 := Xor(h1, h0);  h0 := Rot64(h0, 26);  h1 := Plus(h1, h0);
    h2 := Xor(h2, h1);  h1 := Rot64(h1, 51);  h2 := Plus(h2, h1);
    h3 := Xor(h3, h2);  h2 := Rot64(h2, 28);  h3 := Plus(h3, h2);
    h0 := Xor(h0, h3);  h3 := Rot64(h3, 9);  h0 := Plus(h0, h3);
    h1 := Xor(h1, h0);  h0 := Rot64(h0, 47);  h1 := Plus(h1, h0);
    h2 := Xor(h2, h1);  h1 := Rot64(h1, 54);  h2 := Plus(h2, h1);
    h3 := Xor(h3, h2);  h2 := Rot64(h2, 32);  h3 := Plus(h3, h2);
    h0 := Xor(h0, h3);  h3 := Rot64(h3, 25);  h0 := Plus(h0, h3);
    h1 := Xor(h1, h0);  h0 := Rot64(h0, 63);  h1 := Plus(h1, h0);
  }

  lemma ChunksMore(q: Quad, m: Message, n: nat)
    requires 32 * n + 32 <= |m|
    ensures Chunks(q, m, n + 1) == Chunk(Chunks(q, m, n), m, 32 * n)
  {
    hide Chunk;
  }

  method SpookyShort(m: Message, seed1: Word, seed2: Word) returns (hash1: Word, hash2: Word)
    ensures (hash1, hash2) == Short(m, seed1, seed2)
  {
    hide ShortMix, ShortEnd, Chunks, Load64, Plus, Tail;
    var remainder := |m| % 32;
    var a, b, c, d := seed1, seed2, SC_CONST, SC_CONST;
    var at := 0;
    ghost var q := Quad(a, b, c, d);
    ghost var n := 0;
    assert Chunks(q, m, 0) == q by { ChunksNone(q, m); }
    if |m| > 15 {
      var end := 32 * (|m| / 32);
      while at < end
        invariant n <= |m| / 32 && at == 32 * n && Quad(a, b, c, d) == Chunks(q, m, n)
      {
        c := Plus(c, Load64(m, at));
        d := Plus(d, Load64(m, at + 8));
        a, b, c, d := SpookyShortMix(a, b, c, d);
        a := Plus(a, Load64(m, at + 16));
        b := Plus(b, Load64(m, at + 24));
        ChunksMore(q, m, n);
        at, n := at + 32, n + 1;
      }
      if remainder >= 16 {
        c := Plus(c, Load64(m, at));
        d := Plus(d, Load64(m, at + 8));
        a, b, c, d := SpookyShortMix(a, b, c, d);
        at := at + 16;
        remainder := remainder - 16;
      }
    }
    ghost var p := Quad(a, b, c, d);
    c, d := AddTail(c, d, m, at);
    TailOnly(p, m[at..], |m|);
    a, b, c, d := SpookyShortEnd(a, b, c, d);
    hash1, hash2 := a, b;
  }

  lemma ChunksNone(q: Quad, m: Message)
    ensures Chunks(q, m, 0) == q
  {
  }

  // The tail goes into the last two variables.
  lemma TailOnly(q: Quad, t: Message, length: nat)
    requires |t| < 16
    ensures Tail(q, t, length) == Tail(Quad(0, 0, q.h2, q.h3), t, length).(h0 := q.h0, h1 := q.h1)
  {
    hide Plus, Shl, Load64;
  }
}
