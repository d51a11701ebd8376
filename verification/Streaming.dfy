/** SpookyHash of any message, and the incremental form of it: a state that takes a message
    in fragments, keeps back what it has not mixed yet and reports the hash so far. */
module Streaming {
  import opened Basics
  import opened Words64
  import opened SpookyMixers
  import opened ShortMessages
  import opened SpookyHash

  // ---- The hash of a whole message ----

  function Init(seed1: Word, seed2: Word): Ring {
    Ring(seed1, seed2, SC_CONST, seed1, seed2, SC_CONST, seed1, seed2, SC_CONST, seed1, seed2, SC_CONST)
  }

  // The 96 bytes from position at on, as twelve words.
  function WordsAt(m: Message, at: nat): Block
    requires at + 96 <= |m|
  {
    seq(12, i requires 0 <= i < 12 => Load64(m, at + 8 * i))
  }

  // The first n blocks of m mixed in.
  function Blocks(r: Ring, m: Message, n: nat): Ring
    requires 96 * n <= |m|
  {
    if n == 0 then r else Mix(WordsAt(m, 96 * (n - 1)), Blocks(r, m, n - 1))
  }

  // The last block: padded with zeros, its own length in its last byte.
  function Pad(t: Message): (p: Message)
    requires |t| < 96
    ensures |p| == 96
  {
    t + Zeros(95 - |t|) + [|t|]
  }

  /** The padding loses nothing: two remainders have the same last block only if they are equal.
      Behind the bytes come zeros, and in the last byte their number. */
  lemma PadInjective(t: Message, u: Message)
    requires |t| < 96 && |u| < 96
    ensures Pad(t) == Pad(u) <==> t == u
    ensures t <= Pad(t) && Pad(t)[95] == |t| && forall i | |t| <= i < 95 :: Pad(t)[i] == 0
  {
    assert Pad(t)[95] == |t| && Pad(u)[95] == |u|;
    assert t == Pad(t)[..|t|] && u == Pad(u)[..|u|];
  }

  function Finish(r: Ring, t: Message): (Word, Word)
    requires |t| < 96
  {
    var e := End(WordsAt(Pad(t), 0), r);
    (e.h0, e.h1)
  }

  function Hash128(m: Message, seed1: Word, seed2: Word): (Word, Word) {
    if |m| < 192 then Short(m, seed1, seed2)
    else Finish(Blocks(Init(seed1, seed2), m, |m| / 96), m[96 * (|m| / 96)..])
  }

  lemma Within<T>(s: seq<T>, at: nat, n: nat, i: nat, k: nat)
    requires at + n <= |s| && i + k <= n
    ensures s[at..at + n][i..i + k] == s[at + i..at + i + k]
  {
    var a, b := s[at..at + n], s[at + i..at + i + k];
    forall j | 0 <= j < k ensures a[i..i + k][j] == b[j] {
      assert a[i + j] == s[at + i + j];
    }
  }

  lemma Behind<T>(a: seq<T>, b: seq<T>, i: nat, j: nat)
    requires i <= j <= |b|
    ensures (a + b)[|a| + i..|a| + j] == b[i..j] && (a + b)[|a| + j..] == b[j..]
  {
  }

  lemma WordsSame(a: Message, i: nat, b: Message, j: nat)
    requires i + 96 <= |a| && j + 96 <= |b| && a[i..i + 96] == b[j..j + 96]
    ensures WordsAt(a, i) == WordsAt(b, j)
  {
    hide Little;
    forall k: nat | k < 12 ensures Load64(a, i + 8 * k) == Load64(b, j + 8 * k) {
      Within(a, i, 96, 8 * k, 8);
      Within(b, j, 96, 8 * k, 8);
    }
  }

  lemma {:induction false} BlocksPrefix(r: Ring, m: Message, x: Message, n: nat)
    requires 96 * n <= |m|
    ensures Blocks(r, m + x, n) == Blocks(r, m, n)
  {
    hide Mix, WordsAt;
    if n > 0 {
      var at := 96 * (n - 1);
      assert (m + x)[at..at + 96] == m[at..at + 96];
      WordsSame(m + x, at, m, at);
      BlocksPrefix(r, m, x, n - 1);
    }
  }

  // One more block, read from anywhere that holds the same bytes.
  lemma OneMoreBlock(r: Ring, m: Message, n: nat, b: Message, at: nat)
    requires 96 * n + 96 <= |m| && at + 96 <= |b| && b[at..at + 96] == m[96 * n..96 * n + 96]
    ensures Blocks(r, m, n + 1) == Mix(WordsAt(b, at), Blocks(r, m, n))
  {
    hide Mix, WordsAt;
    WordsSame(b, at, m, 96 * n);
  }

  // A local copy of the variables.
  method InitVars(seed1: Word, seed2: Word) returns (h: array<Word>)
    ensures fresh(h) && h.Length == 12 && Seen(h[..], 0) == Init(seed1, seed2)
  {
    h := new Word[12];
    h[0], h[3], h[6], h[9] := seed1, seed1, seed1, seed1;
    h[1], h[4], h[7], h[10] := seed2, seed2, seed2, seed2;
    h[2], h[5], h[8], h[11] := SC_CONST, SC_CONST, SC_CONST, SC_CONST;
  }

  // Mixing in the n whole blocks of b from position at on, which follow the first k of m.
  method MixBlocks(b: Message, at: nat, n: nat, h: array<Word>, ghost r: Ring, ghost m: Message, ghost k: nat)
    requires h.Length == 12 && at + 96 * n <= |b| && 96 * (k + n) <= |m|
    requires b[at..at + 96 * n] == m[96 * k..96 * k + 96 * n]
    requires Seen(h[..], 0) == Blocks(r, m, k)
    modifies h
    ensures Seen(h[..], 0) == Blocks(r, m, k + n)
  {
    hide Mix, WordsAt, Blocks, Seen;
    var p := at;
    ghost var j := 0;
    while p < at + 96 * n
      invariant j <= n && p == at + 96 * j
      invariant Seen(h[..], 0) == Blocks(r, m, k + j)
    {
      SpookyMix(WordsAt(b, p), h);
      Within(b, at, 96 * n, 96 * j, 96);
      Within(m, 96 * k, 96 * n, 96 * j, 96);
      OneMoreBlock(r, m, k + j, b, p);
      p, j := p + 96, j + 1;
    }
  }

  method SpookyHash128(m: Message, seed1: Word, seed2: Word) returns (hash1: Word, hash2: Word)
    ensures (hash1, hash2) == Hash128(m, seed1, seed2)
  {
    hide Mix, WordsAt, End, Short, Seen, Zeros;
    if |m| < 192 {
      hash1, hash2 := SpookyShort(m, seed1, seed2);
      return;
    }
    var h := InitVars(seed1, seed2);
    assert Blocks(Init(seed1, seed2), m, 0) == Init(seed1, seed2);
    var end := 96 * (|m| / 96);
    MixBlocks(m, 0, |m| / 96, h, Init(seed1, seed2), m, 0);
    var remainder := |m| - end;
    var buf := m[end..] + Zeros(96 - remainder);
    assert buf[95 := remainder] == Pad(m[end..]);
    SpookyEnd(WordsAt(buf[95 := remainder], 0), h);
    SeenFirst(h[..]);
    return h[0], h[1];
  }

  lemma SeenFirst(h: seq<Word>)
    requires |h| == 12
    ensures Seen(h, 0).h0 == h[0] && Seen(h, 0).h1 == h[1]
  {
  }

  // ---- The incremental form ----

  // memcpy
  method CopyInto(data: array<Byte>, at: nat, src: Message)
    requires at + |src| <= data.Length
    modifies data
    ensures data[..at] == old(data[..at]) && data[at..at + |src|] == src
    ensures data[at + |src|..] == old(data[at + |src|..])
  {
    forall i | 0 <= i < |src| {
      data[at + i] := src[i];
    }
  }

  class SpookyState {
    const data: array<Byte>     // unhashed bytes
    const state: array<Word>
    var length: nat             // of the message so far
    var remainder: nat          // how many bytes of data are in use
    ghost var message: Message
    ghost var seed1: Word
    ghost var seed2: Word
    ghost var mixed: nat        // how many blocks of the message have been mixed in

    // The bytes in use are the end of the message, and the rest of it is whole blocks.
    ghost predicate Stuffed()
      reads this, data
    {
      && data.Length == 192 && state.Length == 12 && remainder < 192
      && 96 * mixed + remainder == |message| && data[..remainder] == message[96 * mixed..]
    }

    /** What has been mixed in and what has been kept back make up the message.  Nothing is
        mixed in until 192 bytes have come together: up to then the state holds the seeds. */
    ghost predicate Valid()
      reads this, data, state
    {
      && Stuffed() && length == |message|
      && (length < 192 ==> mixed == 0 && state[0] == seed1 && state[1] == seed2)
      && (length >= 192 ==> Seen(state[..], 0) == Blocks(Init(seed1, seed2), message, mixed))
    }

    constructor (seed1: Word, seed2: Word)
      ensures Valid() && fresh(data) && fresh(state)
      ensures message == [] && this.seed1 == seed1 && this.seed2 == seed2
    {
      data := new Byte[192];
      state := new Word[12];
      new;
      SpookyInit(seed1, seed2);
    }

    method SpookyInit(seed1: Word, seed2: Word)
      requires data.Length == 192 && state.Length == 12
      modifies this, state
      ensures Valid()
      ensures message == [] && this.seed1 == seed1 && this.seed2 == seed2
    {
      length := 0;
      remainder := 0;
      state[0] := seed1;
      state[1] := seed2;
      message, mixed, this.seed1, this.seed2 := [], 0, seed1, seed2;
    }

    // The fragment is too short to mix anything: it is stuffed away.
    method Stuff(fragment: Message)
      requires Valid() && |fragment| + remainder < 192
      modifies this, data
      ensures Valid() && message == old(message) + fragment && seed1 == old(seed1) && seed2 == old(seed2)
    {
      hide Blocks, Seen, Init;
      BlocksPrefix(Init(seed1, seed2), message, fragment, mixed);
      CopyInto(data, remainder, fragment);
      assert data[..remainder + |fragment|] == data[..remainder] + data[remainder..remainder + |fragment|];
      length := |fragment| + length;
      remainder := remainder + |fragment|;
      message := message + fragment;
    }

    // The variables as they stand: the seeds, or what was saved last time.
    method LoadVars() returns (h: array<Word>)
      requires Valid()
      ensures fresh(h) && h.Length == 12
      ensures Seen(h[..], 0) == Blocks(Init(seed1, seed2), message, mixed)
    {
      hide Seen, Init;
      if length < 192 {
        h := InitVars(state[0], state[1]);
      } else {
        h := new Word[12](i requires 0 <= i < 12 reads state requires state.Length == 12 => state[i]);
        assert h[..] == state[..];
      }
    }

    // Filling up the stuffed bytes to two blocks from the front of the fragment, and mixing them.
    method UseStuffed(fragment: Message, h: array<Word>) returns (prefix: nat)
      requires Stuffed() && h.Length == 12 && |fragment| + remainder >= 192
      requires Seen(h[..], 0) == Blocks(Init(seed1, seed2), message, mixed)
      modifies data, h
      ensures prefix == 192 - remainder
      ensures Seen(h[..], 0) == Blocks(Init(seed1, seed2), message + fragment, mixed + 2)
    {
      hide Seen, Init, Blocks, Mix, WordsAt;
      prefix := 192 - remainder;
      ghost var m, r, k := message + fragment, Init(seed1, seed2), mixed;
      BlocksPrefix(r, message, fragment, mixed);
      CopyInto(data, remainder, fragment[..prefix]);
      assert data[..] == data[..remainder] + data[remainder..];
      assert m[96 * k..96 * k + 192] == message[96 * k..] + fragment[..prefix];
      assert data[..] == m[96 * k..96 * k + 192];
      Within(m, 96 * k, 192, 0, 96);
      Within(m, 96 * k, 192, 96, 96);
      SpookyMix(WordsAt(data[..], 0), h);
      OneMoreBlock(r, m, k, data[..], 0);
      SpookyMix(WordsAt(data[..], 96), h);
      OneMoreBlock(r, m, k + 1, data[..], 96);
    }

    // Saving the variables and the bytes that do not fill a block.
    method Save(h: array<Word>, rest: Message, ghost m: Message, ghost k: nat)
      requires data.Length == 192 && state.Length == 12 && h.Length == 12 && h != state && |rest| < 96
      requires length == |m| >= 192 && 96 * k + |rest| == |m| && m[96 * k..] == rest
      requires Seen(h[..], 0) == Blocks(Init(seed1, seed2), m, k)
      modifies this, data, state
      ensures Valid() && message == m && seed1 == old(seed1) && seed2 == old(seed2)
    {
      hide Seen, Init, Blocks;
      ghost var vars := h[..];
      remainder := |rest|;
      CopyInto(data, 0, rest);
      assert h[..] == vars;
      forall i | 0 <= i < 12 {
        state[i] := h[i];
      }
      assert state[..] == vars;
      assert data[..remainder] == data[0..0 + |rest|];
      message, mixed := m, k;
    }

    method SpookyUpdate(fragment: Message)
      requires Valid()
      modifies this, data, state
      ensures Valid() && message == old(message) + fragment && seed1 == old(seed1) && seed2 == old(seed2)
    {
      hide Seen, Init, Blocks;
      if |fragment| + remainder < 192 {
        Stuff(fragment);
        return;
      }
      ghost var m, r, k := message + fragment, Init(seed1, seed2), mixed;
      var h := LoadVars();
      BlocksPrefix(r, message, fragment, mixed);
      length := |fragment| + length;
      var p := 0;
      if remainder > 0 {
        p := UseStuffed(fragment, h);
        k := k + 2;
      }
      var blocks := (|fragment| - p) / 96;
      var end := p + 96 * blocks;
      Behind(message, fragment, p, end);
      assert 96 * k == |message| + p;
      MixBlocks(fragment, p, blocks, h, r, m, k);
      Save(h, fragment[end..], m, k + blocks);
    }

    // Zeros behind the bytes in use of one block, and their number in its last byte.
    method PadBlock(at: nat, rest: nat)
      requires data.Length == 192 && rest < 96 && at <= 96
      modifies data
      ensures data[at..at + 96] == Pad(old(data[at..at + rest]))
      ensures data[..at + rest] == old(data[..at + rest])
    {
      forall i | at + rest <= i < at + 96 {
        data[i] := 0;
      }
      data[at + 95] := rest;
    }

    /** The hash of the message so far.  Only bytes that are not in use are overwritten, so
        the state goes on standing for the same message. */
    method SpookyFinal() returns (hash1: Word, hash2: Word)
      requires Valid()
      modifies data
      ensures Valid() && data[..remainder] == old(data[..remainder])
      ensures (hash1, hash2) == Hash128(message, seed1, seed2)
    {
      hide Seen, Init, Blocks, Mix, End, WordsAt, Pad, Short;
      if length < 192 {
        assert data[..length] == message;
        hash1, hash2 := SpookyShort(data[..length], state[0], state[1]);
        return;
      }
      var h := LoadVars();
      var at, rest := 0, remainder;
      ghost var k := mixed;
      if rest >= 96 {
        // data can hold a whole block and part of the next
        SpookyMix(WordsAt(data[..], 0), h);
        assert data[..][0..96] == data[..remainder][0..96] == message[96 * k..96 * k + 96];
        OneMoreBlock(Init(seed1, seed2), message, k, data[..], 0);
        at, rest, k := 96, rest - 96, k + 1;
      }
      assert data[at..at + rest] == data[..remainder][at..] == message[96 * k..];
      ghost var vars, used := h[..], data[..remainder];
      PadBlock(at, rest);
      assert h[..] == vars && data[..remainder] == used;
      PadFirst(data[..], at);
      SpookyEnd(WordsAt(data[..], at), h);
      SeenFirst(h[..]);
      return h[0], h[1];
    }
  }

  lemma PadFirst(d: Message, at: nat)
    requires at + 96 <= |d|
    ensures |d[at..at + 96]| == 96 && WordsAt(d, at) == WordsAt(d[at..at + 96], 0)
  {
    hide WordsAt;
    assert d[at..at + 96][0..0 + 96] == d[at..at + 96];
    WordsSame(d, at, d[at..at + 96], 0);
  }

  // ---- Any message in any fragments ----

  /** Init, then Update on each fragment with a Final after it: every Final reports the
      one-shot hash of all the fragments so far put together. */
  method HashFragments(fragments: seq<Message>, seed1: Word, seed2: Word) returns (digests: seq<(Word, Word)>)
    ensures |digests| == |fragments| + 1
    ensures forall i | 0 <= i <= |fragments| :: digests[i] == Hash128(Concat(fragments[..i]), seed1, seed2)
  {
    hide Hash128;
    var s := new SpookyState(seed1, seed2);
    var hash1, hash2 := s.SpookyFinal();
    digests := [(hash1, hash2)];
    for n := 0 to |fragments|
      invariant fresh(s) && fresh(s.data) && fresh(s.state)
      invariant s.Valid() && s.message == Concat(fragments[..n]) && s.seed1 == seed1 && s.seed2 == seed2
      invariant |digests| == n + 1
      invariant forall i | 0 <= i <= n :: digests[i] == Hash128(Concat(fragments[..i]), seed1, seed2)
    {
      s.SpookyUpdate(fragments[n]);
      assert fragments[..n + 1][..n] == fragments[..n];
      hash1, hash2 := s.SpookyFinal();
      digests := digests + [(hash1, hash2)];
    }
  }
}
