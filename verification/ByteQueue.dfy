/** cqPush and cqPull: copying bytes into and out of the slots of a queue. */
module ByteQueue {
  import opened Basics
  import opened RingWindow
  import opened RingRuns
  import CQ = CircularQueue

  // A copy into slot s ends within the buffer of that slot.
  predicate StaysInSlot(w: Window<Bytes>, data: Bytes, s: int) {
    w.InRange(s) && 0 <= w.At(s).len && Min(|data|, w.At(s).len) <= |w.At(s).buff|
  }

  // memcpy of the first n bytes of data over the start of a buffer.
  function Overwrite(buff: Bytes, data: Bytes, n: int): Bytes
    requires 0 <= n <= |data| && n <= |buff|
  {
    data[..n] + buff[n..]
  }

  datatype Pushed = Pushed(w: Window<Bytes>, copied: int, err: CqError)

  function Push(w: Window<Bytes>, data: Bytes, s: int): Pushed
    requires PushError(w, s) == NoErr ==> StaysInSlot(w, data, s)
  {
    var err := PushError(w, s);
    if err != NoErr then Pushed(w, |data|, err)
    else
      var n := Min(|data|, w.At(s).len);
      Pushed(w.Put(s, Overwrite(w.At(s).buff, data, n)), n, if n < |data| then Trunc else NoErr)
  }

  function Pull(w: Window<Bytes>, len: nat, s: int): (r: (Bytes, CqError))
    requires w.Has(s) ==> 0 <= w.At(s).len <= |w.At(s).buff|
  {
    if s < w.rdSeq then ([], Panic)
    else if !w.Has(s) then ([], NoSlot)
    else (w.At(s).buff[..Min(len, w.At(s).len)], NoErr)
  }

  method CqPush(cq: CQ.CircularQueue<Bytes>, data: Bytes, seqNum: int) returns (err: CqError, copied: int)
    requires cq.Valid() && (PushError(cq.W(), seqNum) == NoErr ==> StaysInSlot(cq.W(), data, seqNum))
    modifies cq.slots
    ensures cq.Valid()
    ensures Pushed(cq.W(), copied, err) == Push(old(cq.W()), data, seqNum)
  {
    copied := |data|;
    var idx;
    err, idx := cq.Get(seqNum);
    if err == RangeHi {
      return NoSlot, copied;
    }
    if err != NoErr {
      return Panic, copied;
    }
    var slot := cq.slots[idx];
    if slot.valid {
      return NoSlot, copied;
    }
    copied := Min(|data|, slot.len);
    cq.Store(seqNum, Overwrite(slot.buff, data, copied));
    if copied < |data| {
      err := Trunc;
    }
  }

  method CqPull(cq: CQ.CircularQueue<Bytes>, len: nat, seqNum: int) returns (err: CqError, data: Bytes)
    requires cq.Valid() && (cq.W().Has(seqNum) ==> 0 <= cq.W().At(seqNum).len <= |cq.W().At(seqNum).buff|)
    ensures (data, err) == Pull(cq.W(), len, seqNum)
  {
    var idx;
    err, idx := cq.Get(seqNum);
    if err == RangeHi {
      return NoSlot, [];
    }
    if err != NoErr {
      return Panic, [];
    }
    var slot := cq.slots[idx];
    if !slot.valid {
      return NoSlot, [];
    }
    data := slot.buff[..Min(len, slot.len)];
  }

  /** What a push does: it refuses numbers below the window, and numbers past it or in use, and
      then changes nothing; otherwise it writes the first bytes of one buffer, reports how many,
      and leaves all else as it was. */
  lemma PushFacts(w: Window<Bytes>, data: Bytes, s: int)
    requires w.Inv() && (PushError(w, s) == NoErr ==> StaysInSlot(w, data, s))
    ensures var p := Push(w, data, s);
            && (p.err == Panic <==> s < w.rdSeq)
            && (p.err == NoSlot <==> s >= w.rdSeq && (!w.InRange(s) || w.At(s).valid))
            && (p.err in {Panic, NoSlot} ==> p.w == w && p.copied == |data|)
            && (p.err in {NoErr, Trunc} ==>
                  && p.w.InRange(s) && w.InRange(s) && 0 <= p.copied <= |data|
                  && p.copied == Min(|data|, w.At(s).len) && p.copied <= |p.w.At(s).buff|
                  && (p.err == Trunc <==> p.copied < |data|)
                  && p.w.At(s).len == w.At(s).len && !p.w.At(s).valid && |p.w.At(s).buff| == |w.At(s).buff|
                  && p.w.At(s).buff[..p.copied] == data[..p.copied]
                  && p.w.At(s).buff[p.copied..] == w.At(s).buff[p.copied..])
            && (forall t | w.InRange(t) && t != s :: p.w.InRange(t) && p.w.At(t) == w.At(t))
            && p.err in {NoErr, Trunc, NoSlot, Panic}
  {
  }

  /** What a pull reports: a number below the window is a mistake, one that holds nothing is
      refused, and the bytes of any other are handed out from the first one on. */
  lemma PullFacts(w: Window<Bytes>, len: nat, s: int)
    requires w.Has(s) ==> 0 <= w.At(s).len <= |w.At(s).buff|
    ensures var (data, err) := Pull(w, len, s);
            && (err == Panic <==> s < w.rdSeq) && (err == NoSlot <==> s >= w.rdSeq && !w.Has(s))
            && (err == NoErr <==> w.Has(s))
            && (w.Has(s) ==> |data| == Min(len, w.At(s).len) && data <= w.At(s).buff)
            && (!w.Has(s) ==> data == [])
  {
  }

  /** What is pushed and committed at a number is what is pulled there later, whatever
      happens at other numbers in between; a short slot or a short buffer cuts the tail. */
  lemma PushCommitPull(w: Window<Bytes>, data: Bytes, s: int, ops: seq<Op<Bytes>>, len: nat)
    requires w.Inv() && StaysInSlot(w, data, s) && !w.At(s).valid
    requires forall op | op in ops :: !Touches(op, s)
    ensures var p := Push(w, data, s);
            var later := Run(Commit(p.w, s, p.copied).0, ops);
            && p.err in {NoErr, Trunc} && (p.err == NoErr <==> |data| <= w.At(s).len)
            && later.Has(s) && 0 <= p.copied == later.At(s).len <= |later.At(s).buff|
            && Pull(later, len, s) == (data[..Min(len, Min(|data|, w.At(s).len))], NoErr)
  {
    var p := Push(w, data, s);
    CommitFacts(p.w, s, p.copied);
    RunKeepsSlot(Commit(p.w, s, p.copied).0, ops, s);
    var m := Min(len, p.copied);
    assert (data[..p.copied] + w.At(s).buff[p.copied..])[..m] == data[..m];
  }

  // ---- Which copies stay in their slot ----

  // Buffers are slotDataSize bytes long, and slots larger than that.  An empty slot claims that length as long as it has not
  // been used, and the size of the whole slot after that.
  predicate Sized(w: Window<Bytes>) {
    && 0 <= w.slotDataSize < w.slotSize
    && forall i | 0 <= i < |w.cells| ::
         && |w.cells[i].buff| == w.slotDataSize
         && (w.cells[i].valid || w.cells[i].len in {w.slotDataSize, w.slotSize})
  }

  predicate KeepsSize(op: Op<Bytes>, n: int) { op.DoPut? ==> |op.x| == n }

  lemma CommitSized(w: Window<Bytes>, s: int, len: int)
    requires w.Inv() && Sized(w)
    ensures Sized(Commit(w, s, len).0)
  {
  }

  lemma FreeSized(w: Window<Bytes>, s: int)
    requires Sized(w) && w.InRange(s)
    ensures Sized(Free(w, s))
  {
  }

  lemma AdvanceSized(w: Window<Bytes>)
    requires Sized(w) && w.rdSeq <= w.wrSeq <= w.rdSeq + w.Count()
    ensures Sized(AdvRdSeq(w).0)
  {
    var r, k := AdvRdSeq(w).0, FirstValid(w.cells, 0, w.wrSeq - w.rdSeq);
    assert k > 0 ==> r.cells == w.cells[k..] + w.cells[..k];
  }

  lemma ReleaseSized(w: Window<Bytes>, s: int)
    requires w.Inv() && Sized(w)
    ensures Sized(Release(w, s).0)
  {
    if w.Has(s) {
      FreeSized(w, s);
      AdvanceSized(Free(w, s));
      hide Sized, Free, AdvRdSeq, Window.Inv;
    }
  }

  lemma PutSized(w: Window<Bytes>, s: int, x: Bytes)
    requires w.Inv() && Sized(w) && w.InRange(s) && |x| == w.slotDataSize
    ensures Sized(w.Put(s, x))
  {
  }

  lemma SameSize(w: Window<Bytes>, op: Op<Bytes>)
    requires w.Inv()
    ensures var v := Apply(w, op); v.Inv() && v.slotDataSize == w.slotDataSize
  {
  }

  lemma {:induction false} SizedRun(w: Window<Bytes>, ops: seq<Op<Bytes>>)
    requires w.Inv() && Sized(w) && forall op | op in ops :: KeepsSize(op, w.slotDataSize)
    ensures Sized(Run(w, ops)) && Run(w, ops).slotDataSize == w.slotDataSize
    decreases ops
  {
    hide Sized, Commit, Release, Window.Inv;
    if ops != [] {
      assert ops[0] in ops && forall op | op in ops[1..] :: op in ops;
      SameSize(w, ops[0]);
      match ops[0] {
        case DoCommit(s, len) => CommitSized(w, s, len);
        case DoRelease(s) => ReleaseSized(w, s);
        case DoPut(s, x) => if w.InRange(s) { PutSized(w, s, x); }
      }
      SizedRun(Apply(w, ops[0]), ops[1..]);
    }
  }

  /** Which pushes into an empty slot stay in its buffer, after any operations on a new queue:
      those of data that fits the buffer, which are then not cut either, and those into a slot
      that has not been used before. */
  lemma PushStays(size: nat, count: nat, zero: Bytes, ops: seq<Op<Bytes>>, data: Bytes, s: int)
    requires count > 0 && |zero| == size && forall op | op in ops :: KeepsSize(op, size)
    requires var w := Run(Empty(size, count, zero), ops); w.InRange(s) && !w.At(s).valid
    ensures var w := Run(Empty(size, count, zero), ops);
            && (StaysInSlot(w, data, s) <==> |data| <= size || w.At(s).len == size)
            && (|data| <= size ==> Push(w, data, s).err == NoErr && Push(w, data, s).copied == |data|)
  {
    hide Run;
    SizedRun(Empty(size, count, zero), ops);
    var w := Run(Empty(size, count, zero), ops);
    assert w.cells[s - w.rdSeq] == w.At(s);
  }

  /** When a slot has been released, the next push into the same memory may run over the end of
      its buffer: it does if and only if the data is longer than that. */
  lemma ReleasedClaims(w: Window<Bytes>, s: int, data: Bytes)
    requires w.Inv() && Sized(w) && w.Has(s)
    ensures var v := Release(w, s).0;
            var t := if s < v.rdSeq then s + w.Count() else s;
            && v.InRange(t) && !v.At(t).valid && v.At(t).len == w.slotSize
            && (StaysInSlot(v, data, t) <==> |data| <= w.slotDataSize)
  {
    ReleaseSized(w, s);
    ReleasedSlot(w, s);
    hide Release, Window.Inv;
    var v := Release(w, s).0;
    var t := if s < v.rdSeq then s + w.Count() else s;
    assert v.cells[t - v.rdSeq] == v.At(t);
  }

  // The memory of a released slot, under the number that has it next.
  lemma ReleasedSlot(w: Window<Bytes>, s: int)
    requires w.Inv() && w.Has(s)
    ensures var v := Release(w, s).0;
            var t := if s < v.rdSeq then s + w.Count() else s;
            && v.InRange(t) && v.At(t) == Slot(w.slotSize, w.At(s).buff, false)
            && v.slotDataSize == w.slotDataSize && v.slotSize == w.slotSize
  {
    ReleaseFacts(w, s);
    var v := Release(w, s).0;
    if s < v.rdSeq { ShiftEnters(Free(w, s), v.rdSeq - w.rdSeq, s + w.Count()); }
  }
}
