/** Properties of a circular queue over whole sequences of operations. */
module RingRuns {
  import opened RingWindow

  datatype Op<T> = DoCommit(s: int, len: int) | DoRelease(s: int) | DoPut(s: int, x: T)

  function Apply<T>(w: Window<T>, op: Op<T>): Window<T>
    requires w.Inv()
  {
    match op
    case DoCommit(s, len) => Commit(w, s, len).0
    case DoRelease(s) => Release(w, s).0
    case DoPut(s, x) => if w.InRange(s) then w.Put(s, x) else w
  }

  function Run<T>(w: Window<T>, ops: seq<Op<T>>): (r: Window<T>)
    requires w.Inv()
    ensures r.Inv()
    ensures r.Count() == w.Count() && w.rdSeq <= r.rdSeq && w.wrSeq <= r.wrSeq
    decreases ops
  {
    if ops == [] then w else Run(Apply(w, ops[0]), ops[1..])
  }

  predicate Touches<T>(op: Op<T>, s: int) {
    (op.DoRelease? || op.DoPut?) && op.s == s
  }

  /** A full slot keeps its bytes and length across any operations at other numbers, and
      across any attempt to commit it again: it never leaves the window. */
  lemma {:induction false} RunKeepsSlot<T>(w: Window<T>, ops: seq<Op<T>>, s: int)
    requires w.Inv() && w.Has(s)
    requires forall op | op in ops :: !Touches(op, s)
    ensures Run(w, ops).Has(s) && Run(w, ops).At(s) == w.At(s)
    decreases ops
  {
    if ops != [] {
      assert ops[0] in ops && !Touches(ops[0], s);
      match ops[0] {
        case DoCommit(t, len) => CommitFacts(w, t, len);
        case DoRelease(t) => ReleaseHas(w, t);
        case DoPut(_, _) =>
      }
      assert forall op | op in ops[1..] :: op in ops;
      RunKeepsSlot(Apply(w, ops[0]), ops[1..], s);
    }
  }

  /** Commits and releases at any numbers, in any order, from an empty queue. */
  lemma RunFromEmpty<T>(size: int, count: nat, zero: T, ops: seq<Op<T>>)
    requires count > 0
    ensures var w := Run(Empty(size, count, zero), ops);
            && w.rdSeq <= w.wrSeq <= w.rdSeq + count
            && (w.wrSeq < w.rdSeq + count <==> w.InRange(w.wrSeq) && !w.At(w.wrSeq).valid)
            && (w.rdSeq < w.wrSeq <==> w.Has(w.rdSeq))
            && w.rdMax in {w.wrSeq, w.wrSeq + 1}
            && w.readable + w.available == count
  {
    var w := Run(Empty(size, count, zero), ops);
    assert w.Inv();
  }

  // How far the readable counter is from the distance between the two edges.
  function Drift<T>(w: Window<T>): int { w.readable - (w.wrSeq - w.rdSeq) }

  /** The counters move by one even when an edge moves further: a commit keeps the drift
      exactly when it does not fill the gap before a slot that is already full. */
  lemma CommitDrift<T>(w: Window<T>, s: int, len: int)
    requires w.Inv()
    ensures Drift(Commit(w, s, len).0) == Drift(w)
            <==> !(Commits(w, s, len) && s == w.wrSeq && w.Has(w.wrSeq + 1))
  {
    CommitFacts(w, s, len);
    var r := Commit(w, s, len);
    if w.InRange(s) && !w.At(s).valid && len <= w.At(s).len {
      if s == w.wrSeq {
        assert r.0.At(s).valid;
        assert r.0.wrSeq != s;
        if r.0.wrSeq == s + 1 && w.InRange(s + 1) {
          assert !r.0.At(s + 1).valid && r.0.At(s + 1) == w.At(s + 1);
        }
        if r.0.wrSeq > s + 1 {
          assert r.0.At(s + 1).valid && r.0.At(s + 1) == w.At(s + 1);
        }
      } else if w.InRange(w.wrSeq) {
        assert r.0.At(w.wrSeq) == w.At(w.wrSeq);
      }
    }
  }

  /** A release keeps the drift exactly when the slot after the read edge is not a hole. */
  lemma ReleaseDrift<T>(w: Window<T>, s: int)
    requires w.Inv()
    ensures Drift(Release(w, s).0) == Drift(w)
            <==> !(s == w.rdSeq && w.Has(s) && s + 1 < w.wrSeq && !w.At(s + 1).valid)
  {
    ReleaseFacts(w, s);
    var r := Release(w, s);
    if s == w.rdSeq && w.Has(s) {
      assert s < w.wrSeq && r.0.rdSeq > s;
      if s + 1 < w.wrSeq {
        assert w.InRange(s + 1);
        if r.0.rdSeq == s + 1 { assert r.0.At(s + 1).valid && r.0.At(s + 1) == w.At(s + 1); }
      }
    }
  }

  // Exactly the slots between the edges are full, and the counters agree with the edges.
  ghost predicate Contiguous<T>(w: Window<T>) {
    && w.Inv() && Drift(w) == 0
    && forall t | w.InRange(t) :: w.At(t).valid <==> t < w.wrSeq
  }

  // Commit only at the write edge and release only at the read edge, as the listen queue does.
  predicate Disciplined<T>(w: Window<T>, ops: seq<Op<T>>)
    requires w.Inv()
    decreases ops
  {
    ops == [] ||
    (&& (ops[0].DoCommit? ==> ops[0].s == w.wrSeq)
     && (ops[0].DoRelease? ==> ops[0].s == w.rdSeq)
     && Disciplined(Apply(w, ops[0]), ops[1..]))
  }

  lemma {:induction false} DisciplinedRun<T>(w: Window<T>, ops: seq<Op<T>>)
    requires Contiguous(w) && Disciplined(w, ops)
    ensures Contiguous(Run(w, ops))
    ensures Run(w, ops).readable == Run(w, ops).wrSeq - Run(w, ops).rdSeq
    decreases ops
  {
    if ops != [] {
      match ops[0] {
        case DoCommit(s, len) => CommitDrift(w, s, len); CommitFacts(w, s, len);
        case DoRelease(s) => ReleaseDrift(w, s); ReleaseFacts(w, s);
        case DoPut(_, _) =>
      }
      assert Contiguous(Apply(w, ops[0]));
      DisciplinedRun(Apply(w, ops[0]), ops[1..]);
    }
  }
}
