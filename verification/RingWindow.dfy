/** The value of a circular queue, seen from its read edge: the slots of the window
    [rdSeq, rdSeq + Count()) in sequence order.  The heap class CircularQueue refines
    these functions; everything the protocol needs of a queue is proved here. */
module RingWindow {

  // The cqE... codes of the source.
  datatype CqError =
    | NoErr | NoSlot | Trunc | RangeHi | RangeLo | WrongSlot | Panic | NoChange

  datatype Slot<T> = Slot(len: int, buff: T, valid: bool)

  // cells[i] is the slot of sequence number rdSeq + i.
  datatype Window<T> = Window(
    slotDataSize: int, slotSize: int,
    rdSeq: nat, wrSeq: nat, rdMax: nat,
    readable: int, available: int, outstanding: int,
    cells: seq<Slot<T>>)
  {
    function Count(): nat { |cells| }

    predicate InRange(s: int) { rdSeq <= s < rdSeq + |cells| }

    function At(s: int): Slot<T>
      requires InRange(s)
    {
      cells[s - rdSeq]
    }

    predicate Has(s: int) { InRange(s) && At(s).valid }

    // Overwriting the buffer of a slot through a slot pointer.
    function Put(s: int, x: T): (w: Window<T>)
      requires InRange(s)
      ensures w.Count() == Count() && w.rdSeq == rdSeq && w.wrSeq == wrSeq && w.rdMax == rdMax
      ensures forall t | InRange(t) :: w.At(t) == if t == s then At(t).(buff := x) else At(t)
    {
      this.(cells := cells[s - rdSeq := cells[s - rdSeq].(buff := x)])
    }

    /** What every queue operation keeps: the edges are ordered and both are as far
        forward as the slots allow, and the derived read bound is one of two values. */
    ghost predicate Inv() {
      && |cells| > 0
      && rdSeq <= wrSeq <= rdSeq + |cells|
      && (wrSeq < rdSeq + |cells| ==> !At(wrSeq).valid)
      && (rdSeq < wrSeq ==> At(rdSeq).valid)
      && (rdMax == wrSeq || (rdMax == wrSeq + 1 && wrSeq < rdSeq + |cells|))
      && readable + available == |cells|
    }
  }

  function FirstInvalid<T>(cells: seq<Slot<T>>, i: nat): (r: nat)
    requires i <= |cells|
    ensures i <= r <= |cells|
    ensures forall j | i <= j < r :: cells[j].valid
    ensures r < |cells| ==> !cells[r].valid
    decreases |cells| - i
  {
    if i == |cells| || !cells[i].valid then i else FirstInvalid(cells, i + 1)
  }

  function FirstValid<T>(cells: seq<Slot<T>>, i: nat, hi: nat): (r: nat)
    requires i <= hi <= |cells|
    ensures i <= r <= hi
    ensures forall j | i <= j < r :: !cells[j].valid
    ensures r < hi ==> cells[r].valid
    decreases hi - i
  {
    if i == hi || cells[i].valid then i else FirstValid(cells, i + 1, hi)
  }

  // The size of a slot in memory: its header of 17 bytes and its buffer, rounded up to words.
  function SlotSize(buffSize: int): int { (buffSize + 17 + 7) / 8 * 8 }

  // It leaves room for both, and is the least multiple of eight that does.
  lemma SlotSizeIs(buffSize: nat)
    ensures SlotSize(buffSize) % 8 == 0 && buffSize + 17 <= SlotSize(buffSize) < buffSize + 17 + 8
  {
  }

  function Empty<T>(slotDataSize: int, count: nat, zero: T): (w: Window<T>)
    ensures w.Count() == count && w.rdSeq == w.wrSeq == w.rdMax == 0
    ensures forall s | w.InRange(s) :: w.At(s) == Slot(slotDataSize, zero, false)
    ensures count > 0 ==> w.Inv()
  {
    Window(slotDataSize, SlotSize(slotDataSize), 0, 0, 0, 0, count, 0, seq(count, _ => Slot(slotDataSize, zero, false)))
  }

  function Get<T>(w: Window<T>, s: int): (err: CqError)
    ensures err == NoErr <==> w.InRange(s)
    ensures err == RangeLo <==> s < w.rdSeq
    ensures err in {NoErr, RangeLo, RangeHi}
  {
    if s < w.rdSeq then RangeLo else if s >= w.rdSeq + w.Count() then RangeHi else NoErr
  }

  function GetRd<T>(w: Window<T>, s: int): (err: CqError)
    ensures err == NoErr <==> w.Has(s)
    ensures err == WrongSlot <==> w.InRange(s) && !w.At(s).valid
  {
    var err := Get(w, s);
    if err != NoErr then err else if !w.At(s).valid then WrongSlot else NoErr
  }

  // How cqPush refuses a number.
  function PushError<T>(w: Window<T>, s: int): CqError {
    if s < w.rdSeq then Panic else if !w.InRange(s) || w.At(s).valid then NoSlot else NoErr
  }

  function AdvWrSeq<T>(w: Window<T>): (r: (Window<T>, CqError))
    requires w.rdSeq <= w.wrSeq <= w.rdSeq + w.Count()
  {
    var wr := w.rdSeq + FirstInvalid(w.cells, w.wrSeq - w.rdSeq);
    if wr == w.wrSeq then (w, NoChange)
    else (w.(wrSeq := wr, rdMax := wr, outstanding := w.outstanding - 1,
             readable := w.readable + 1, available := w.available - 1), NoErr)
  }

  lemma AdvWrSeqFacts<T>(w: Window<T>)
    requires w.rdSeq <= w.wrSeq <= w.rdSeq + w.Count()
    ensures var r := AdvWrSeq(w);
            && w.wrSeq <= r.0.wrSeq <= w.rdSeq + w.Count()
            && (forall t | w.wrSeq <= t < r.0.wrSeq :: w.At(t).valid)
            && (w.InRange(r.0.wrSeq) ==> !w.At(r.0.wrSeq).valid)
  {
  }

  // Dropping the first k slots of the window brings the same k slots in at its far end.
  function Shift<T>(w: Window<T>, k: nat): (r: Window<T>)
    requires k <= w.Count()
    ensures r.Count() == w.Count() && r.rdSeq == w.rdSeq + k
    ensures forall t | r.rdSeq <= t < w.rdSeq + w.Count() :: r.At(t) == w.At(t)
  {
    w.(rdSeq := w.rdSeq + k, cells := w.cells[k..] + w.cells[..k])
  }

  lemma ShiftEnters<T>(w: Window<T>, k: nat, t: int)
    requires k <= w.Count() && w.rdSeq + w.Count() <= t < w.rdSeq + k + w.Count()
    ensures Shift(w, k).At(t) == w.At(t - w.Count())
  {
    var i := t - w.rdSeq - k;
    assert Shift(w, k).cells[i] == w.cells[..k][i - |w.cells[k..]|];
  }

  function AdvRdSeq<T>(w: Window<T>): (r: (Window<T>, CqError))
    requires w.rdSeq <= w.wrSeq <= w.rdSeq + w.Count()
  {
    var k := FirstValid(w.cells, 0, w.wrSeq - w.rdSeq);
    if k == 0 then (w, NoChange)
    else (Shift(w, k).(rdMax := w.wrSeq + 1, readable := w.readable - 1, available := w.available + 1), NoErr)
  }

  lemma AdvRdSeqFacts<T>(w: Window<T>)
    requires w.rdSeq <= w.wrSeq <= w.rdSeq + w.Count()
    ensures var r := AdvRdSeq(w);
            && w.rdSeq <= r.0.rdSeq <= w.wrSeq == r.0.wrSeq && r.0.Count() == w.Count()
            && r.0.readable + r.0.available == w.readable + w.available
            && r.1 == (if r.0.rdSeq == w.rdSeq then NoChange else NoErr)
            && r.0.rdMax == (if r.0.rdSeq == w.rdSeq then w.rdMax else w.wrSeq + 1)
            && (forall t | r.0.rdSeq <= t < w.rdSeq + w.Count() :: r.0.At(t) == w.At(t))
            && (forall t | w.rdSeq <= t < r.0.rdSeq :: !w.At(t).valid)
            && (forall t | w.rdSeq + w.Count() <= t < r.0.rdSeq + w.Count() :: !r.0.At(t).valid)
            && (r.0.rdSeq < w.wrSeq ==> w.At(r.0.rdSeq).valid)
  {
    var k := FirstValid(w.cells, 0, w.wrSeq - w.rdSeq);
    if k > 0 {
      var r := Shift(w, k);
      forall t | w.rdSeq + w.Count() <= t < r.rdSeq + w.Count() ensures !r.At(t).valid {
        ShiftEnters(w, k, t);
      }
    }
  }

  function Fill<T>(w: Window<T>, s: int, len: int): (v: Window<T>)
    requires w.InRange(s)
    ensures v.Count() == w.Count() && v.rdSeq == w.rdSeq
    ensures forall t | w.InRange(t) ::
              v.At(t) == if t == s then Slot(len, w.At(t).buff, true) else w.At(t)
  {
    w.(cells := w.cells[s - w.rdSeq := Slot(len, w.At(s).buff, true)], outstanding := w.outstanding + 1)
  }

  function Commit<T>(w: Window<T>, s: int, len: int): (r: (Window<T>, CqError))
    requires w.rdSeq <= w.wrSeq <= w.rdSeq + w.Count()
    ensures w.Inv() ==> r.0.Inv()
    ensures r.0.Count() == w.Count() && r.0.rdSeq == w.rdSeq && r.0.wrSeq >= w.wrSeq
  {
    var err := Get(w, s);
    if err != NoErr then (w, err)
    else if len > w.At(s).len then (w, Panic)
    else if w.At(s).valid then (w, WrongSlot)
    else
      AdvWrSeqFacts(Fill(w, s, len));
      AdvWrSeq(Fill(w, s, len))
  }

  predicate Commits<T>(w: Window<T>, s: int, len: int) {
    w.InRange(s) && !w.At(s).valid && len <= w.At(s).len
  }

  /** Committing a slot changes that slot alone, moves the write edge to the first empty
      slot and leaves the read edge where it is. */
  lemma CommitFacts<T>(w: Window<T>, s: int, len: int)
    requires w.rdSeq <= w.wrSeq <= w.rdSeq + w.Count()
    ensures var (r, err) := Commit(w, s, len);
            && (!Commits(w, s, len) ==> r == w && err !in {NoErr, NoChange})
            && (Commits(w, s, len) ==> err == if r.wrSeq == w.wrSeq then NoChange else NoErr)
            && (err == RangeLo <==> s < w.rdSeq) && (err == RangeHi <==> s >= w.rdSeq + w.Count())
            && (err == Panic <==> w.InRange(s) && len > w.At(s).len)
            && (err == WrongSlot <==> w.InRange(s) && w.At(s).valid && len <= w.At(s).len)
            && r.outstanding == w.outstanding + (if err == NoChange then 1 else 0)
            && r.slotDataSize == w.slotDataSize && r.slotSize == w.slotSize
            && (forall t | w.InRange(t) ::
                  r.At(t) == if Commits(w, s, len) && t == s then Slot(len, w.At(t).buff, true) else w.At(t))
            && (forall t | w.wrSeq <= t < r.wrSeq :: w.InRange(t) && r.At(t).valid)
            && r.rdMax == if err == NoErr then r.wrSeq else w.rdMax
  {
    if Commits(w, s, len) { AdvWrSeqFacts(Fill(w, s, len)); }
  }

  // A slot that is freed claims the whole of its memory as its length.
  function Free<T>(w: Window<T>, s: int): (v: Window<T>)
    requires w.InRange(s)
    ensures v.Count() == w.Count() && v.rdSeq == w.rdSeq
    ensures forall t | w.InRange(t) ::
              v.At(t) == if t == s then Slot(w.slotSize, w.At(t).buff, false) else w.At(t)
  {
    w.(cells := w.cells[s - w.rdSeq := Slot(w.slotSize, w.At(s).buff, false)])
  }

  function Release<T>(w: Window<T>, s: int): (r: (Window<T>, CqError))
    requires w.rdSeq <= w.wrSeq <= w.rdSeq + w.Count()
    ensures w.Inv() ==> r.0.Inv()
    ensures r.0.Count() == w.Count() && r.0.wrSeq == w.wrSeq && r.0.rdSeq >= w.rdSeq
  {
    var err := Get(w, s);
    if err != NoErr then (w, err)
    else if !w.At(s).valid then (w, WrongSlot)
    else
      AdvRdSeqFacts(Free(w, s));
      AdvRdSeq(Free(w, s))
  }

  /** Releasing a slot empties that slot alone.  The read edge moves to the first slot
      still in use, and the slots that enter the window at its far end are empty. */
  lemma ReleaseFacts<T>(w: Window<T>, s: int)
    requires w.rdSeq <= w.wrSeq <= w.rdSeq + w.Count()
    ensures var (r, err) := Release(w, s);
            && (!w.Has(s) ==> r == w && err !in {NoErr, NoChange})
            && (w.Has(s) ==> err == if r.rdSeq == w.rdSeq then NoChange else NoErr)
            && (err == RangeLo <==> s < w.rdSeq) && (err == RangeHi <==> s >= w.rdSeq + w.Count())
            && (err == WrongSlot <==> w.InRange(s) && !w.At(s).valid)
            && r.outstanding == w.outstanding
            && r.slotDataSize == w.slotDataSize && r.slotSize == w.slotSize
            && (forall t | r.rdSeq <= t < w.rdSeq + w.Count() ::
                  r.At(t) == if w.Has(s) && t == s then Slot(w.slotSize, w.At(t).buff, false) else w.At(t))
            && (forall t | w.rdSeq <= t < r.rdSeq :: t < w.wrSeq && (t == s || !w.At(t).valid))
            && (forall t | w.rdSeq + w.Count() <= t < r.rdSeq + w.Count() :: !r.At(t).valid)
            && r.rdMax == if err == NoErr then r.wrSeq + 1 else w.rdMax
  {
    if w.Has(s) {
      var v := Free(w, s);
      AdvRdSeqFacts(v);
      var r := AdvRdSeq(v).0;
      forall t | w.rdSeq <= t < r.rdSeq ensures t < w.wrSeq && (t == s || !w.At(t).valid) {
        assert !v.At(t).valid;
      }
    }
  }

  /** In terms of the full slots alone: exactly slot s is gone, nothing else changed. */
  lemma ReleaseHas<T>(w: Window<T>, s: int)
    requires w.Inv()
    ensures var r := Release(w, s).0;
            && (forall t :: r.Has(t) <==> w.Has(t) && t != s)
            && (forall t | r.Has(t) :: r.At(t) == w.At(t))
            && (w.Has(s) ==> (Release(w, s).1 == NoErr <==> s == w.rdSeq))
  {
    ReleaseFacts(w, s);
    var r := Release(w, s).0;
    if w.Has(s) {
      forall t ensures r.Has(t) <==> w.Has(t) && t != s {
      }
    }
  }
}
