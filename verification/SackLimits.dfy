/** The edges of the SACK encoders: how large a field gets, and what happens past the limits
    that the protocol's runs keep to. */
module SackLimits {
  import opened RingWindow
  import opened Packets
  import opened Sender
  import opened Receiver
  import opened AckProofs
  import opened Stale
  import opened StaleRuns
  import opened StaleEnds
  import opened StaleCalls
  import opened AckExact
  import opened AckRuns
  import opened Acks
  import opened AckAccepted

  // ---- No field counts more packets than the window has slots ----

  // Every field, open or sent, counts at most n packets; behind is not a field of this call.
  ghost predicate Fits(st: AckScan, n: int, behind: SackField) {
    && st.fields[MAX_SACKS] == behind
    && (forall k | 0 <= k < MAX_SACKS :: st.fields[k].count <= n)
    && (forall a, f | a in st.log && f in a.fields :: f.count <= n || f == behind)
  }

  lemma WrapSmall(n: nat)
    ensures Wrap32(n) <= n
  {
  }

  lemma SlotFits(st: AckScan, i: int, n: int, behind: SackField)
    requires st.Ok() && st.fieldIdx < MAX_SACKS && Fits(st, n, behind) && n >= 0
    ensures Fits(ScanSlot(st, i).st, n + 1, behind)
  {
    hide Window.Inv, Wrap32;
    if st.rxQ.Has(i) {
      var p := st.rxQ.At(i).buff;
      var f := OpenField(st, p).fields[st.fieldIdx];
      WrapSmall(f.count + 1);
    }
  }

  lemma FlushFits(st: AckScan, sackCount: nat, m: nat, n: int, behind: SackField)
    requires st.txQ.Inv() && m <= MAX_SACKS + 1 && Fits(st, n, behind) && n >= 0
    ensures Fits(Flush(st, sackCount, m).st, n, behind)
  {
    hide PushSack, Window.Inv;
    forall f | f in st.fields[..m] ensures f.count <= n || f == behind {
      var k :| 0 <= k < m && st.fields[k] == f;
    }
  }

  lemma AckAtFits(st: AckScan, i: int, n: int, behind: SackField)
    requires st.Ok() && Fits(st, n, behind) && n >= 0
    ensures Fits(AckAt(st, i).st, n + 1, behind)
  {
    hide Flush, ScanSlot, Fits;
    if st.fieldIdx >= MAX_SACKS {
      FlushFits(st, 0, MAX_SACKS, n, behind);
      FitsMore(Flush(st, 0, MAX_SACKS).st, n, n + 1, behind);
      FlushOk(st);
      if !Flush(st, 0, MAX_SACKS).stop { SlotFits(Flush(st, 0, MAX_SACKS).st, i, n, behind); }
    } else {
      SlotFits(st, i, n, behind);
    }
  }

  lemma FlushOk(st: AckScan)
    requires st.Ok()
    ensures var f := Flush(st, 0, MAX_SACKS); f.stop || (f.st.Ok() && f.st.fieldIdx < MAX_SACKS)
  {
  }

  lemma FitsMore(st: AckScan, n: int, m: int, behind: SackField)
    requires Fits(st, n, behind) && n <= m
    ensures Fits(st, m, behind)
  {
  }

  lemma {:induction false} LoopFits(st: AckScan, i: int, maxSlots: nat, behind: SackField)
    requires st.Ok() && st.rxQ.rdSeq <= i <= st.rxQ.rdSeq + st.rxQ.Count() && Fits(st, i - st.rxQ.rdSeq, behind)
    ensures Fits(AckLoop(st, i, maxSlots).st, st.rxQ.Count(), behind)
    decreases st.rxQ.wrSeq + 1 - i
  {
    hide AckAt, Fits;
    FitsMore(st, i - st.rxQ.rdSeq, st.rxQ.Count(), behind);
    if i < st.rxQ.rdMax && i < st.rxQ.rdSeq + maxSlots {
      var s := AckAt(st, i);
      AckAtFits(st, i, i - st.rxQ.rdSeq, behind);
      AckAtWindow(st, i);
      FitsMore(s.st, i + 1 - st.rxQ.rdSeq, st.rxQ.Count(), behind);
      if !s.stop { LoopFits(s.st, i + 1, maxSlots, behind); }
    }
  }

  lemma AckAtWindow(st: AckScan, i: int)
    requires st.Ok()
    ensures var w, v := st.rxQ, AckAt(st, i).st.rxQ; v.rdSeq == w.rdSeq && v.Count() == w.Count() && v.rdMax == w.rdMax
    ensures st.rxQ.rdMax <= st.rxQ.rdSeq + st.rxQ.Count()
    ensures st.rxQ.rdMax <= st.rxQ.wrSeq + 1
  {
    hide PushSack, OpenField, MarkAcked, Wrap32;
  }

  lemma StartFits(r: Receiver, behind: SackField)
    requires r.rxQ.Inv() && r.txQ.Inv()
    ensures Fits(AckStart(r, behind), 0, behind)
  {
  }

  /** A field counts at most as many packets as the receive window has slots.  So the 16-bit
      counter that the sender steps through a field with reaches the end of every field from
      a window of fewer than 2^16 slots. */
  lemma FieldsFitWindow(r: Receiver, maxAckPackets: int, maxSlots: nat, behind: SackField)
    requires r.rxQ.Inv() && r.txQ.Inv()
    ensures forall a, f | a in GenerateAcks(r, maxAckPackets, maxSlots, behind).2 && f in a.fields ::
              f.count <= r.rxQ.Count() || f == behind
  {
    if maxAckPackets > 0 && r.rxQ.readable != 0 {
      hide Flush, AckLoop, Cleared, Window.Inv;
      StartFits(r, behind);
      LoopFits(AckStart(r, behind), r.rxQ.rdSeq, maxSlots, behind);
      var s := AckLoop(AckStart(r, behind), r.rxQ.rdSeq, maxSlots);
      FlushFits(s.st, s.st.fieldIdx + 1, s.st.fieldIdx + 1, r.rxQ.Count(), behind);
    }
  }

  // ---- Offsets that do not fit 32 bits ----

  lemma OneSlot(r: Receiver, behind: SackField) returns (e: AckScan)
    requires r.rxQ.Inv() && r.txQ.Inv() && Wants(r.rxQ, r.rxQ.rdSeq) && r.rxQ.At(r.rxQ.rdSeq).buff.dat.seqNum == r.rxQ.rdSeq
    ensures AckLoop(AckStart(r, behind), r.rxQ.rdSeq, 1) == AckStep(e, false, NoError)
    ensures e.fieldIdx == 0 && e.unsent == 1 && e.base == r.seqAck && e.txQ == r.txQ && e.log == []
    ensures e.fields[0] == SackField(Wrap32(r.rxQ.rdSeq - r.seqAck), 1)
  {
    var st := AckStart(r, behind);
    assert Wrap32(0 + 1) == 1;
    assert AckLoop(st, r.rxQ.rdSeq, 1) == AckLoop(AckAt(st, r.rxQ.rdSeq).st, r.rxQ.rdSeq + 1, 1);
    e := AckAt(st, r.rxQ.rdSeq).st;
    hide AckAt;
  }

  /** Why exactness asks for the acknowledged edge to be near: a call that acknowledges one
      packet acknowledges that packet if and only if its offset fits 32 bits. */
  lemma OffsetExact(r: Receiver, maxAckPackets: int, behind: SackField)
    requires r.rxQ.Inv() && r.txQ.Inv() && Wants(r.rxQ, r.rxQ.rdSeq) && r.rxQ.At(r.rxQ.rdSeq).buff.dat.seqNum == r.rxQ.rdSeq
    requires maxAckPackets > 0 && r.rxQ.readable != 0 && r.seqAck <= r.rxQ.rdSeq
    requires r.txQ.wrSeq < r.txQ.rdSeq + r.txQ.Count()
    ensures var (r', err, log) := GenerateAcks(r, maxAckPackets, 1, behind);
            && err == NoError && |log| == 1 && Accepts(log[0])
            && (Expand(log[0].base, log[0].fields) == [r.rxQ.rdSeq] <==> r.rxQ.rdSeq - r.seqAck < TWO_TO_THE_32)
  {
    hide AckLoop, AckStart, Commit, Window.Inv, Wants, Expand;
    var e := OneSlot(r, behind);
    var o := Wrap32(r.rxQ.rdSeq - r.seqAck);
    assert e.fields[..1] == [] + [SackField(o, 1)];
    ExpandOne(e.base, o);
  }

  lemma ExpandOne(base: int, offset: nat)
    ensures Expand(base, [] + [SackField(offset, 1)]) == [base + offset]
  {
    ExpandSnoc(base, [], SackField(offset, 1));
    assert Range(base + offset, 1) == [base + offset];
  }

  // ---- A window that makes a call read past its field buffer ----

  // Every second packet wants no acknowledgement, so each of the others is a run of its own.
  ghost predicate Alternating(w: PacketQ) {
    && w.rdMax == w.rdSeq + 24
    && forall t | w.rdSeq <= t < w.rdSeq + 24 :: Wants(w, t) <==> (t - w.rdSeq) % 2 == 0
  }

  lemma {:induction false} AlternatingRuns(w: PacketQ, k: nat)
    requires Alternating(w) && k <= 12
    ensures ClosedRuns(w, w.rdSeq + 2 * k) == k && (k > 0 ==> ClosedRuns(w, w.rdSeq + 2 * k - 1) == k - 1)
  {
    hide Wants;
    if k > 0 {
      AlternatingRuns(w, k - 1);
      var t := w.rdSeq + 2 * (k - 1);
      assert Wants(w, t) && !Wants(w, t + 1);
      assert k > 1 ==> !Wants(w, t - 1);
    }
  }

  /** The least window that makes a call leave its field buffer: 24 packets of which every
      second one wants no acknowledgement. */
  lemma OverreadCall(r: Receiver, maxAckPackets: int, maxSlots: nat, behind: SackField)
    requires r.rxQ.Inv() && r.txQ.Inv() && Alternating(r.rxQ)
    requires r.rxQ.readable != 0 && maxAckPackets > 0 && maxSlots >= 24 && behind.count > 0 && Room(r.txQ) > 0
    ensures !StaysInBuffer(r, maxAckPackets, maxSlots, behind)
  {
    hide ClosedRuns, Wants, Window.Inv, Room;
    AlternatingRuns(r.rxQ, 12);
    var h := Horizon(r.rxQ, maxSlots);
    assert h == r.rxQ.rdSeq + 24;
  }

  /** Nor do the acknowledgements of such a call reach the sender as they were meant. */
  lemma OverreadLoses(r: Receiver, maxAckPackets: int, maxSlots: nat, behind: SackField)
    requires RxWindow(r.rxQ) && AckEdge(r.rxQ, r.seqAck) && r.txQ.Inv() && Small(r.rxQ) && r.rxQ.Inv()
    requires Alternating(r.rxQ)
    requires r.rxQ.readable != 0 && maxAckPackets > 0 && maxSlots >= 24 && behind.count > 0
    ensures Flatten(Accepted(GenerateAcks(r, maxAckPackets, maxSlots, behind).2)) != Wanted(r.rxQ, Horizon(r.rxQ, maxSlots))
  {
    hide ClosedRuns, Wants, Window.Inv, Room, RxWindow, AckEdge, Small, Reaches, GenerateAcks, Flatten, Accepted;
    AlternatingRuns(r.rxQ, 12);
    AcceptedExact(r, maxAckPackets, maxSlots, behind);
    var h := Horizon(r.rxQ, maxSlots);
    assert h == r.rxQ.rdSeq + 24 && Wants(r.rxQ, r.rxQ.rdSeq);
    WantedSome(r.rxQ, r.rxQ.rdSeq, h);
  }

  lemma WantedSome(w: PacketQ, t: int, h: int)
    requires Wants(w, t) && w.rdSeq <= t < h
    ensures Wanted(w, h) != []
  {
    hide Wants;
    WantedExact(w, h);
    assert t in Wanted(w, h);
  }

  // ---- A long call over the stale list leaves its field buffer and acknowledges too much ----

  predicate Evens(l: StaleQ, n: nat) { |l| == n && forall j | 0 <= j < n :: l[j].seqNum == 2 * j }

  lemma {:induction false} EvensAfter(l: StaleQ, n: nat, m: nat)
    requires Evens(l, n) && 0 < m <= 13 && m <= n
    ensures var p := After(l, m); p.field == m && !p.long && p.doubles == 0 && p.flushes == 0
    ensures |Distinct(l, m)| == m
  {
    if m > 1 {
      EvensAfter(l, n, m - 1);
      hide Distinct;
      DistinctStep(l, m - 1);
    } else {
      OneDistinct(l);
    }
  }

  /** The least call that writes behind its field buffer: over the numbers 0, 2, ..., 24 with 25
      iterations.  Whatever was there is a field that counts one packet afterwards. */
  lemma OverrunCall(r: Receiver, maxAckPackets: int, behind: SackField)
    requires Evens(r.staleQ, 13) && maxAckPackets > 0 && r.txQ.Inv()
    ensures Overruns(r.staleQ, 25) && !Overruns(r.staleQ, 24) && !Flushes(r.staleQ, 25)
    ensures BehindAfter(r, maxAckPackets, 25, behind).count == 1
  {
    hide BehindAfter, After, Distinct, Window.Inv;
    EvensAfter(r.staleQ, 13, 13);
    assert Due(r.staleQ, 13) == 25;
    ShortCallStays(r.staleQ, 24);
    ShortCallHolds(r.staleQ, 25);
    LoopMemory(r, 25, behind, 26);
    BehindIs(r, maxAckPackets, 25, behind);
  }

  lemma EvensEnd(l: StaleQ, i: nat, k: nat, m: nat, again: bool, maxSlots: nat)
    requires Evens(l, 14) && Ends(l, i, k, m, again, maxSlots) && maxSlots >= 28
    ensures Named(l, k, m, again) == [26, 27]
  {
    EvensAfter(l, 14, 13);
    DistinctStep(l, 13);
    hide Distinct;
    if m <= 13 { EvensAfter(l, 14, m); }
  }

  /** The least list on which a call oversteps: on the numbers 0, 2, ..., 26 a call of 28
      iterations or more acknowledges 27, which is not in the list, and of the numbers in the
      list the sender hears of 26 alone. */
  lemma LongStaleCall(r: Receiver, maxAckPackets: int, maxSlots: nat, behind: SackField)
    requires Evens(r.staleQ, 14) && maxAckPackets > 0 && r.txQ.Inv() && maxSlots >= 28
    requires Room(r.txQ) >= 2
    ensures Oversteps(r.staleQ, maxSlots, 27) && StaleNeeded(r.staleQ, maxSlots) == 2
    ensures Flatten(Accepted(GenerateStaleAcks(r, maxAckPackets, maxSlots, behind).2)) == [26, 27]
    ensures !LogBelow(GenerateStaleAcks(r, maxAckPackets, maxSlots, behind).2, 27)
  {
    hide GenerateStaleAcks, LogBelow, Distinct, Window.Inv, Room, Flatten, Accepted, Ends, Stuck, TxGrew;
    var l := r.staleQ;
    EvensAfter(l, 14, 13);
    DistinctStep(l, 13);
    assert After(l, 14).long && After(l, 14).doubles == 1 && After(l, 14).flushes == 1;
    assert Due(l, 14) == 28;
    NeededLeast(l, 14, 14, maxSlots);
    StaleRoom(r, maxAckPackets, maxSlots, behind, 27);
    StaleSoundExact(r, maxAckPackets, maxSlots, behind, 27);
    hide After;
    var i, k, m, again := StaleCall(r, maxAckPackets, maxSlots, behind, 27);
    var (r', err, log) := GenerateStaleAcks(r, maxAckPackets, maxSlots, behind);
    StaleDoneIs(r, r', err, log, i, k, m, again, maxSlots, 27);
    EvensEnd(l, i, k, m, again, maxSlots);
  }
}
