/** The circular queue as the source keeps it: a fixed array of 2^k slots that sequence
    numbers are masked into, with its edges and counters updated in place. */
module CircularQueue {
  import opened Bits
  import opened RingWindow

  // The physical slots in window order.
  function Unroll<T>(phys: seq<Slot<T>>, rd: nat): (cells: seq<Slot<T>>)
    requires |phys| > 0
    ensures |cells| == |phys|
  {
    seq(|phys|, i requires 0 <= i < |phys| => phys[(rd + i) % |phys|])
  }

  // A masked index reaches one number of the window only.
  lemma UnrollUpdate<T>(phys: seq<Slot<T>>, rd: nat, s: nat, x: Slot<T>)
    requires |phys| > 0 && rd <= s < rd + |phys|
    ensures Unroll(phys[s % |phys| := x], rd) == Unroll(phys, rd)[s - rd := x]
  {
    forall i {:trigger Unroll(phys, rd)[i]} | 0 <= i < |phys|
      ensures Unroll(phys[s % |phys| := x], rd)[i] == Unroll(phys, rd)[s - rd := x][i]
    {
      if (rd + i) % |phys| == s % |phys| { ModInjective(rd + i, s, |phys|); }
    }
  }

  lemma UnrollShift<T>(phys: seq<Slot<T>>, rd: nat, k: nat)
    requires |phys| > 0 && k <= |phys|
    ensures Unroll(phys, rd + k) == Unroll(phys, rd)[k..] + Unroll(phys, rd)[..k]
  {
    var n := |phys|;
    forall i | 0 <= i < n
      ensures Unroll(phys, rd + k)[i] == (Unroll(phys, rd)[k..] + Unroll(phys, rd)[..k])[i]
    {
      if i >= n - k {
        ModAdd(rd + k + i - n, n);
        assert (Unroll(phys, rd)[k..] + Unroll(phys, rd)[..k])[i] == Unroll(phys, rd)[i - (n - k)];
      }
    }
  }

  class CircularQueue<T> {
    const slotDataSize: int
    const slotCountLog2: nat
    const slotCount: nat
    const seqMask: nat
    const slotSize: int
    const slots: array<Slot<T>>
    var rdMin: nat
    var rdMax: nat
    var readable: int
    var wrMin: nat
    var wrMax: nat
    var available: int
    var outstanding: int
    var rdSeq: nat
    var wrSeq: nat

    // The abstract value of the queue.
    ghost function W(): (w: Window<T>)
      requires slots.Length > 0
      reads this, slots
      ensures w.Count() == slots.Length && w.rdSeq == rdSeq && w.wrSeq == wrSeq && w.rdMax == rdMax
    {
      Window(slotDataSize, slotSize, rdSeq, wrSeq, rdMax, readable, available, outstanding, Unroll(slots[..], rdSeq))
    }

    ghost predicate Shape()
      reads this, slots
    {
      && slotCount == slots.Length == Pow2(slotCountLog2) && seqMask == slotCount - 1
      && rdMin == rdSeq && wrMin == wrSeq && wrMax == rdSeq + slotCount
      && rdSeq <= wrSeq <= rdSeq + slotCount
    }

    ghost predicate Valid()
      reads this, slots
    {
      Shape() && W().Inv()
    }

    // cqNew: the slot memory is zeroed, so every slot starts with the same contents.
    constructor (buffSize: int, log2: nat, zero: T)
      requires buffSize >= 0
      ensures Valid() && fresh(slots)
      ensures W() == Empty(buffSize, Pow2(log2), zero)
    {
      slotDataSize := buffSize;
      slotCountLog2 := log2;
      slotCount := Pow2(log2);
      seqMask := Pow2(log2) - 1;
      slotSize := (buffSize + 17 + 7) / 8 * 8;
      slots := new Slot<T>[Pow2(log2)](_ => Slot(buffSize, zero, false));
      rdMin, rdMax, rdSeq, wrSeq, wrMin := 0, 0, 0, 0, 0;
      wrMax := Pow2(log2);
      readable, outstanding := 0, 0;
      available := Pow2(log2);
    }

    // The slot of a number of the window, as its index in the slot array.
    method Get(seqNum: int) returns (err: CqError, idx: nat)
      requires Shape()
      ensures err == RingWindow.Get(W(), seqNum)
      ensures err == NoErr ==> seqNum >= 0 && idx == seqNum % slotCount && idx < slots.Length
      ensures err == NoErr ==> slots[idx] == W().At(seqNum)
    {
      if seqNum < rdSeq {
        return RangeLo, 0;
      }
      if seqNum >= rdSeq + slotCount {
        return RangeHi, 0;
      }
      MaskIsMod(seqNum, slotCountLog2);
      idx := BitAnd(seqNum, seqMask);
      assert W().cells[seqNum - rdSeq] == slots[..][(rdSeq + (seqNum - rdSeq)) % slotCount];
      err := NoErr;
    }

    // The scanning loop of cqAdvWrSeq.
    method ScanFull() returns (seqNum: nat)
      requires Shape()
      ensures seqNum == rdSeq + FirstInvalid(W().cells, wrSeq - rdSeq)
    {
      hide Unroll, Pow2;
      seqNum := wrSeq;
      while true
        invariant wrSeq <= seqNum <= rdSeq + slotCount
        invariant FirstInvalid(W().cells, wrSeq - rdSeq) == FirstInvalid(W().cells, seqNum - rdSeq)
        decreases rdSeq + slotCount - seqNum
      {
        var e, idx := Get(seqNum);
        if e == RangeHi {
          return;
        }
        assert e == NoErr;  // no other error can occur: wrSeq never trails rdSeq
        if !slots[idx].valid {
          return;
        }
        seqNum := seqNum + 1;
      }
    }

    method AdvWrSeq() returns (err: CqError)
      requires Shape()
      modifies this
      ensures Shape()
      ensures (W(), err) == RingWindow.AdvWrSeq(old(W()))
    {
      hide Unroll, Pow2, FirstInvalid;
      var seqNum := ScanFull();
      if seqNum == wrSeq {
        return NoChange;
      }
      wrSeq := seqNum;
      wrMin := seqNum;
      wrMax := rdSeq + slotCount;
      rdMax := wrMin;
      outstanding := outstanding - 1;
      readable := readable + 1;
      available := available - 1;
      return NoErr;
    }

    // The scanning loop of cqAdvRdSeq.
    method ScanEmpty() returns (seqNum: nat)
      requires Shape()
      ensures seqNum == rdSeq + FirstValid(W().cells, 0, wrSeq - rdSeq)
    {
      hide Unroll, Pow2;
      seqNum := rdSeq;
      while true
        invariant rdSeq <= seqNum <= wrSeq
        invariant FirstValid(W().cells, 0, wrSeq - rdSeq) == FirstValid(W().cells, seqNum - rdSeq, wrSeq - rdSeq)
        decreases wrSeq - seqNum
      {
        if seqNum >= wrSeq {
          return;
        }
        var e, idx := Get(seqNum);
        assert e == NoErr;  // neither panic of the source can occur below the write edge
        if slots[idx].valid {
          return;
        }
        seqNum := seqNum + 1;
      }
    }

    method AdvRdSeq() returns (err: CqError)
      requires Shape()
      modifies this
      ensures Shape()
      ensures (W(), err) == RingWindow.AdvRdSeq(old(W()))
    {
      hide Unroll, Pow2, FirstValid;
      var seqNum := ScanEmpty();
      if seqNum == rdSeq {
        return NoChange;
      }
      ghost var w, phys, k := W(), slots[..], seqNum - rdSeq;
      rdSeq := seqNum;
      rdMin := seqNum;
      rdMax := wrMin + 1;
      wrMax := rdMin + slotCount;
      readable := readable - 1;
      available := available + 1;
      assert slots[..] == phys;
      assert W().cells == Shift(w, k).cells by { UnrollShift(phys, w.rdSeq, k); }
      return NoErr;
    }

    // Overwriting a slot through its pointer.
    method SetSlot(idx: nat, seqNum: nat, x: Slot<T>)
      requires Shape() && W().InRange(seqNum) && idx == seqNum % slotCount
      modifies slots
      ensures Shape()
      ensures W() == old(W()).(cells := old(W().cells)[seqNum - rdSeq := x])
    {
      UnrollUpdate(slots[..], rdSeq, seqNum, x);
      ghost var before := slots[..];
      slots[idx] := x;
      assert slots[..] == before[idx := x];
    }

    // Writing the buffer of a slot that Get, GetNextWr or GetRd hand out.
    method Store(seqNum: int, x: T)
      requires Valid() && W().InRange(seqNum)
      modifies slots
      ensures Valid()
      ensures W() == old(W()).Put(seqNum, x)
    {
      var _, idx := Get(seqNum);
      SetSlot(idx, seqNum, slots[idx].(buff := x));
    }

    method CommitSlot(seqNum: int, len: int) returns (err: CqError)
      requires Valid()
      modifies this, slots
      ensures (W(), err) == Commit(old(W()), seqNum, len)
      ensures Valid()
    {
      hide Unroll, RingWindow.AdvWrSeq;
      var idx;
      err, idx := Get(seqNum);
      if err != NoErr {
        return;
      }
      if len > slots[idx].len {
        return Panic;
      }
      if slots[idx].valid {
        return WrongSlot;
      }
      SetSlot(idx, seqNum, slots[idx].(len := len, valid := true));
      outstanding := outstanding + 1;
      assert W() == Fill(old(W()), seqNum, len);
      err := AdvWrSeq();
      assert (W(), err) == Commit(old(W()), seqNum, len);
    }

    method ReleaseSlot(seqNum: int) returns (err: CqError)
      requires Valid()
      modifies this, slots
      ensures (W(), err) == Release(old(W()), seqNum)
      ensures Valid()
    {
      hide Unroll, RingWindow.AdvRdSeq;
      var idx;
      err, idx := Get(seqNum);
      if err != NoErr {
        return;
      }
      if !slots[idx].valid {
        return WrongSlot;
      }
      SetSlot(idx, seqNum, slots[idx].(len := slotSize, valid := false));
      assert W() == Free(old(W()), seqNum);
      err := AdvRdSeq();
      assert (W(), err) == Release(old(W()), seqNum);
    }

    // The next slot to write: refused exactly when the window is full.
    method GetNextWr() returns (err: CqError, seqNum: int)
      requires Valid()
      ensures err == if wrSeq == rdSeq + slotCount then NoSlot else NoErr
      ensures err == NoErr ==> seqNum == wrSeq && W().InRange(seqNum) && !W().At(seqNum).valid
    {
      var idx;
      err, idx := Get(wrSeq);
      if err == RangeHi {
        return NoSlot, -1;
      }
      if slots[idx].valid {
        return NoSlot, -1;
      }
      seqNum := wrSeq;
    }

    // The next slot to read: refused exactly when there is nothing between the edges.
    method GetNextRd() returns (err: CqError, seqNum: int, slot: Slot<T>)
      requires Valid()
      ensures err == if rdSeq == wrSeq then NoSlot else NoErr
      ensures err == NoErr ==> seqNum == rdSeq && W().Has(seqNum) && slot == W().At(seqNum)
    {
      var idx;
      err, idx := Get(rdSeq);
      slot := slots[idx];
      if !slot.valid {
        return NoSlot, -1, slot;
      }
      seqNum := rdSeq;
    }

    method GetRd(seqNum: int) returns (err: CqError, slot: Slot<T>)
      requires Valid()
      ensures err == RingWindow.GetRd(W(), seqNum)
      ensures err == NoErr ==> slot == W().At(seqNum)
    {
      var idx;
      err, idx := Get(seqNum);
      if err != NoErr {
        slot := slots[0];
        return;
      }
      slot := slots[idx];
      if !slot.valid {
        return WrongSlot, slot;
      }
    }

    // cqPush of one whole record: nothing is truncated.
    method Push(x: T, seqNum: int) returns (err: CqError)
      requires Valid()
      modifies slots
      ensures Valid()
      ensures err == PushError(old(W()), seqNum)
      ensures W() == if err == NoErr then old(W()).Put(seqNum, x) else old(W())
    {
      var idx;
      err, idx := Get(seqNum);
      if err == RangeHi {
        return NoSlot;
      }
      if err != NoErr {
        return Panic;
      }
      if slots[idx].valid {
        return NoSlot;
      }
      Store(seqNum, x);
    }
  }
}
