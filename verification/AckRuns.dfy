/** How many SACKs a call of generateAcks has to send, and from where.  Both follow from the
    runs of packets that want an acknowledgement, and can be read off the window before the
    call: every twelfth run that is closed before the last slot fills the field buffer. */
module AckRuns {
  import opened Basics
  import opened RingWindow
  import opened Packets
  import opened Receiver
  import opened AckProofs
  import opened AckExact

  // ---- Room in the queue of outgoing acknowledgements ----

  // The empty slots from s on.
  function EmptyFrom(w: PacketQ, s: nat): nat
    requires w.rdSeq <= s
    decreases w.rdSeq + w.Count() - s
  {
    if !w.InRange(s) then 0 else (if w.At(s).valid then 0 else 1) + EmptyFrom(w, s + 1)
  }

  // How many more packets can be queued at the write edge.
  function Room(w: PacketQ): nat
    requires w.Inv()
  {
    EmptyFrom(w, w.wrSeq)
  }

  lemma {:induction false} EmptySame(w: PacketQ, v: PacketQ, s: nat)
    requires w.rdSeq == v.rdSeq <= s && w.Count() == v.Count()
    requires forall t | s <= t && w.InRange(t) :: w.At(t).valid == v.At(t).valid
    ensures EmptyFrom(w, s) == EmptyFrom(v, s)
    decreases w.rdSeq + w.Count() - s
  {
    if w.InRange(s) { EmptySame(w, v, s + 1); }
  }

  lemma {:induction false} EmptySkip(w: PacketQ, s: nat, e: nat)
    requires w.rdSeq <= s <= e && forall t | s <= t < e :: w.Has(t)
    ensures EmptyFrom(w, s) == EmptyFrom(w, e)
    decreases e - s
  {
    if s < e {
      assert w.Has(s);
      EmptySkip(w, s + 1, e);
    }
  }

  // Queueing a SACK takes one place, and fails only when there is none.
  lemma PushRoom(w: PacketQ, sack: Sack)
    requires w.Inv()
    ensures var (v, err) := PushSack(w, sack);
            if Room(w) == 0 then err == TryAgain && v == w
            else err == NoError && Room(v) == Room(w) - 1
  {
    PushSackExact(w, sack);
    hide PushSack, Window.Inv;
    if w.wrSeq < w.rdSeq + w.Count() {
      var s, v := w.wrSeq, PushSack(w, sack).0;
      EmptySkip(v, s, v.wrSeq);
      EmptySame(w, v, s + 1);
    }
  }

  // The first position at or below hi below which n runs are closed, or hi.
  function StopAt(w: PacketQ, n: nat, hi: int): (j: int)
    ensures j <= hi
    decreases hi - w.rdSeq
  {
    if hi <= w.rdSeq || ClosedRuns(w, hi - 1) < n then hi else StopAt(w, n, hi - 1)
  }

  // Room and log before iteration i, and the fields open since the last SACK.
  ghost predicate Runs(rx: PacketQ, tx: PacketQ, st: AckScan, i: int) {
    && tx.Inv() && st.txQ.Inv()
    && Room(st.txQ) + |st.log| == Room(tx)
    && (forall s | s in st.log :: s.sackCount == 0 && |s.fields| == MAX_SACKS)
    && st.fieldIdx + 12 * |st.log| == ClosedRuns(rx, i)
    && 12 * |st.log| <= ClosedRuns(rx, i - 1) < 12 * |st.log| + 12
    && (st.inProgress <==> Wants(rx, i - 1))
  }

  // The same once a full buffer has been sent.
  ghost predicate AfterSend(rx: PacketQ, tx: PacketQ, st: AckScan, i: int) {
    && tx.Inv() && st.txQ.Inv()
    && Room(st.txQ) + |st.log| == Room(tx)
    && (forall s | s in st.log :: s.sackCount == 0 && |s.fields| == MAX_SACKS)
    && st.fieldIdx + 12 * |st.log| == ClosedRuns(rx, i) && st.fieldIdx < MAX_SACKS
    && (st.inProgress <==> Wants(rx, i - 1))
  }

  lemma RunsSlot(rx: PacketQ, tx: PacketQ, st: AckScan, i: int)
    requires RxWindow(rx) && rx.InRange(i) && Marked(rx, st.rxQ, i) && st.Ok() && AfterSend(rx, tx, st, i)
    ensures Runs(rx, tx, ScanSlot(st, i).st, i + 1)
  {
    SlotIs(rx, st, i);
    if rx.Has(i) && Wants(rx, i - 1) { PrefixStep(rx, i); }
    assert i == rx.rdSeq ==> !Wants(rx, i - 1);
    hide ScanSlot, Wants, RxWindow, Marked, Room, Window.Inv;
  }

  lemma RunsFlush(rx: PacketQ, tx: PacketQ, st: AckScan, i: int)
    requires Runs(rx, tx, st, i) && st.Ok() && st.fieldIdx >= MAX_SACKS
    ensures var f := Flush(st, 0, MAX_SACKS);
            && (f.stop <==> Room(tx) == |st.log|)
            && (if f.stop then f.st == st && f.err == TryAgain else AfterSend(rx, tx, f.st, i) && |f.st.log| == |st.log| + 1)
  {
    hide PushSack, Wants, Room, Window.Inv, ClosedRuns;
    PushRoom(st.txQ, Sack(st.base, 0, st.fields[..MAX_SACKS]));
    assert ClosedRuns(rx, i) > ClosedRuns(rx, i - 1);
    ClosedLast(rx, i);
  }

  // A run is closed by a packet that wants no acknowledgement.
  lemma ClosedLast(w: PacketQ, i: int)
    requires ClosedRuns(w, i) > ClosedRuns(w, i - 1)
    ensures !Wants(w, i - 1)
  {
  }

  lemma RunsOn(rx: PacketQ, tx: PacketQ, st: AckScan, i: int)
    requires Runs(rx, tx, st, i) && st.fieldIdx < MAX_SACKS
    ensures AfterSend(rx, tx, st, i)
  {
    hide Wants, Room, ClosedRuns;
  }

  lemma AckAtIs(st: AckScan, i: int)
    requires st.Ok()
    ensures var f := if st.fieldIdx >= MAX_SACKS then Flush(st, 0, MAX_SACKS) else AckStep(st, false, NoError);
            AckAt(st, i) == if f.stop then f else ScanSlot(f.st, i)
  {
    hide ScanSlot, PushSack;
  }

  lemma FlushScans(rx: PacketQ, tx: PacketQ, st: AckScan, i: int)
    requires RxWindow(rx) && Scanning(rx, st, i) && i <= rx.wrSeq && st.fieldIdx >= MAX_SACKS && st.Ok()
    requires tx.Inv() && TxGrew(tx, st.txQ, st.log)
    ensures var f := Flush(st, 0, MAX_SACKS);
            Scanning(rx, f.st, i) && TxGrew(tx, f.st.txQ, f.st.log) && f.st.Ok() && (f.stop || f.st.fieldIdx == 0)
  {
    FlushFacts(rx, tx, st, i);
    hide Flush;
  }

  lemma ScanMarked(rx: PacketQ, st: AckScan, i: int)
    requires Scanning(rx, st, i)
    ensures Marked(rx, st.rxQ, i)
  {
  }

  lemma InWindow(rx: PacketQ, i: int)
    requires RxWindow(rx) && rx.rdSeq <= i < rx.rdMax
    ensures rx.InRange(i) && i <= rx.wrSeq
  {
  }

  lemma ScanFrom(rx: PacketQ, st: AckScan, i: int)
    requires Scanning(rx, st, i)
    ensures rx.rdSeq <= i
  {
  }

  lemma AckAtRuns(rx: PacketQ, tx: PacketQ, st: AckScan, i: int)
    requires RxWindow(rx) && tx.Inv() && Scanning(rx, st, i) && TxGrew(tx, st.txQ, st.log) && i < rx.rdMax
    requires Runs(rx, tx, st, i) && st.Ok()
    ensures var s := AckAt(st, i);
            && (s.stop <==> st.fieldIdx >= MAX_SACKS && Room(tx) == |st.log|)
            && (if s.stop then s.st == st else Runs(rx, tx, s.st, i + 1))
  {
    hide *;
    OkIs(st);
    ScanFrom(rx, st, i);
    InWindow(rx, i);
    AckAtIs(st, i);
    if st.fieldIdx >= MAX_SACKS {
      FlushScans(rx, tx, st, i);
      RunsFlush(rx, tx, st, i);
    } else {
      RunsOn(rx, tx, st, i);
    }
    var f := if st.fieldIdx >= MAX_SACKS then Flush(st, 0, MAX_SACKS) else AckStep(st, false, NoError);
    if !f.stop {
      ScanBounds(rx, f.st, i);
      AfterSendIs(rx, tx, f.st, i);
      SlotFacts(rx, f.st, i);
      ScanMarked(rx, f.st, i);
      RunsSlot(rx, tx, f.st, i);
    }
  }

  lemma OkIs(st: AckScan)
    requires st.Ok()
    ensures st.txQ.Inv() && st.fieldIdx <= MAX_SACKS < MAX_SACKS + 1
  {
  }

  lemma AfterSendIs(rx: PacketQ, tx: PacketQ, st: AckScan, i: int)
    requires AfterSend(rx, tx, st, i)
    ensures st.fieldIdx < MAX_SACKS
  {
  }

  lemma AmongRuns(rx: PacketQ, tx: PacketQ, st: AckScan, i: int)
    requires AfterSend(rx, tx, st, i)
    ensures Among(rx, st, i)
  {
    hide ClosedRuns, Wants, Room, Window.Inv;
  }

  lemma AckAtExact(rx: PacketQ, seqAck: int, tx: PacketQ, st: AckScan, i: int)
    requires RxWindow(rx) && tx.Inv() && Scanning(rx, st, i) && TxGrew(tx, st.txQ, st.log) && i < rx.rdMax
    requires Exact(rx, seqAck, st, i) && Runs(rx, tx, st, i) && st.Ok()
    ensures Exact(rx, seqAck, AckAt(st, i).st, if AckAt(st, i).stop then i else i + 1)
  {
    hide *;
    OkIs(st);
    ScanFrom(rx, st, i);
    InWindow(rx, i);
    AckAtIs(st, i);
    ScanBounds(rx, st, i);
    if st.fieldIdx >= MAX_SACKS {
      FlushScans(rx, tx, st, i);
      RunsFlush(rx, tx, st, i);
      FlushExact(rx, seqAck, tx, st, i);
    } else {
      RunsOn(rx, tx, st, i);
    }
    var f := if st.fieldIdx >= MAX_SACKS then Flush(st, 0, MAX_SACKS) else AckStep(st, false, NoError);
    if !f.stop {
      ScanBounds(rx, f.st, i);
      AfterSendIs(rx, tx, f.st, i);
      AmongRuns(rx, tx, f.st, i);
      SlotFacts(rx, f.st, i);
      SlotExact(rx, seqAck, f.st, i);
    }
  }

  // The loop stops early exactly where a buffer is full and the queue has no more room.
  lemma {:induction false} LoopRuns(rx: PacketQ, seqAck: int, tx: PacketQ, st: AckScan, i: int, maxSlots: nat) returns (j: int)
    requires RxWindow(rx) && tx.Inv() && Scanning(rx, st, i) && TxGrew(tx, st.txQ, st.log)
    requires Runs(rx, tx, st, i) && st.Ok()
    ensures var s, h := AckLoop(st, i, maxSlots), Max(i, Min(rx.rdMax, rx.rdSeq + maxSlots));
            && Reached(rx, tx, s, j) && Runs(rx, tx, s.st, j)
            && (Exact(rx, seqAck, st, i) ==> Exact(rx, seqAck, s.st, j))
            && i <= j <= h && (s.stop <==> j < h) && (s.stop ==> s.st.fieldIdx >= MAX_SACKS && Room(tx) == |s.st.log|)
    decreases rx.wrSeq + 1 - i
  {
    hide AckAt, TxGrew, Scanning, RxWindow, AckScan.Ok, Exact, Runs, Room;
    j := i;
    ScanBounds(rx, st, i);
    if i < rx.rdMax && i < rx.rdSeq + maxSlots {
      AckAtFacts(rx, tx, st, i);
      AckAtRuns(rx, tx, st, i);
      if Exact(rx, seqAck, st, i) { AckAtExact(rx, seqAck, tx, st, i); }
      var s := AckAt(st, i);
      if !s.stop { j := LoopRuns(rx, seqAck, tx, s.st, i + 1, maxSlots); }
    }
  }

  lemma {:induction false} StopAtIs(w: PacketQ, n: nat, j: int, hi: int)
    requires w.rdSeq <= j <= hi && (j == hi || ClosedRuns(w, j) >= n) && ClosedRuns(w, j - 1) < n
    ensures StopAt(w, n, hi) == j
    decreases hi
  {
    hide Wants, ClosedRuns;
    if j < hi {
      ClosedMono(w, j, hi - 1);
      StopAtIs(w, n, j, hi - 1);
    }
  }

  // ---- The call, before it is made ----

  // How far a call may look.
  function Horizon(w: PacketQ, maxSlots: nat): int { Max(w.rdSeq, Min(w.rdMax, w.rdSeq + maxSlots)) }

  // How far it gets with the room there is for its SACKs.
  function Reach(r: Receiver, maxSlots: nat): int
    requires r.txQ.Inv()
  {
    StopAt(r.rxQ, 12 * Room(r.txQ) + 12, Horizon(r.rxQ, maxSlots))
  }

  // How many SACKs it takes to acknowledge what is below h: the full ones, and one for the rest.
  function SacksNeeded(w: PacketQ, h: int): nat {
    var full := ClosedRuns(w, h - 1) / 12;
    full + if ClosedRuns(w, h) > 12 * full || Wants(w, h - 1) then 1 else 0
  }

  // The last slot below h closes a run, and with it the last field of a buffer.
  predicate FillsBuffer(w: PacketQ, h: int) {
    ClosedRuns(w, h) > ClosedRuns(w, h - 1) && ClosedRuns(w, h) % 12 == 0
  }

  // The memory behind the field buffer is never written.
  lemma {:induction false} LoopBehind(st: AckScan, i: int, maxSlots: nat)
    requires st.Ok()
    ensures AckLoop(st, i, maxSlots).st.fields[MAX_SACKS] == st.fields[MAX_SACKS]
    decreases st.rxQ.wrSeq + 1 - i
  {
    hide AckAt, AckScan.Ok, Window.Inv;
    ReadBound(st);
    if i < st.rxQ.rdMax && i < st.rxQ.rdSeq + maxSlots {
      var s := AckAt(st, i);
      AckAtBehind(st, i);
      if !s.stop { LoopBehind(s.st, i + 1, maxSlots); }
    }
  }

  lemma ReadBound(st: AckScan)
    requires st.Ok()
    ensures st.rxQ.rdMax <= st.rxQ.wrSeq + 1
  {
  }

  lemma AckAtBehind(st: AckScan, i: int)
    requires st.Ok()
    ensures AckAt(st, i).st.fields[MAX_SACKS] == st.fields[MAX_SACKS]
  {
    if st.fieldIdx >= MAX_SACKS {
      var f := Flush(st, 0, MAX_SACKS);
      if !f.stop { SlotBehind(f.st, i); }
    } else {
      SlotBehind(st, i);
    }
    hide ScanSlot, PushSack;
  }

  lemma SlotBehind(st: AckScan, i: int)
    requires st.Ok() && st.fieldIdx < MAX_SACKS
    ensures ScanSlot(st, i).st.fields[MAX_SACKS] == st.fields[MAX_SACKS]
  {
  }

  lemma RunsStart(r: Receiver, behind: SackField)
    requires RxWindow(r.rxQ) && AckEdge(r.rxQ, r.seqAck) && r.txQ.Inv()
    ensures var st := AckStart(r, behind);
            && st.Ok() && Runs(r.rxQ, r.txQ, st, r.rxQ.rdSeq) && st.fields[MAX_SACKS] == behind
            && Scanning(r.rxQ, st, r.rxQ.rdSeq) && TxGrew(r.txQ, st.txQ, st.log)
            && (Small(r.rxQ) ==> Exact(r.rxQ, r.seqAck, st, r.rxQ.rdSeq))
  {
    hide Room;
  }

  // The end of the loop, with all that the theorems on a call depend on.
  ghost predicate Ended(r: Receiver, maxSlots: nat, behind: SackField, s: AckStep) {
    && r.txQ.Inv()
    && var j, h := Reach(r, maxSlots), Horizon(r.rxQ, maxSlots);
    && Reached(r.rxQ, r.txQ, s, j) && Runs(r.rxQ, r.txQ, s.st, j)
    && (Small(r.rxQ) ==> Exact(r.rxQ, r.seqAck, s.st, j))
    && (s.stop <==> j < h) && (s.stop ==> s.st.fieldIdx >= MAX_SACKS && Room(r.txQ) == |s.st.log|)
    && s.st.fields[MAX_SACKS] == behind
  }

  lemma CallRuns(r: Receiver, maxSlots: nat, behind: SackField)
    requires RxWindow(r.rxQ) && AckEdge(r.rxQ, r.seqAck) && r.txQ.Inv()
    ensures r.rxQ.Inv() && Ended(r, maxSlots, behind, AckLoop(AckStart(r, behind), r.rxQ.rdSeq, maxSlots))
  {
    hide *;
    WindowInv(r.rxQ);
    var st := AckStart(r, behind);
    RunsStart(r, behind);
    LoopBehind(st, r.rxQ.rdSeq, maxSlots);
    var j := LoopRuns(r.rxQ, r.seqAck, r.txQ, st, r.rxQ.rdSeq, maxSlots);
    EndsAt(r, maxSlots, behind, AckLoop(st, r.rxQ.rdSeq, maxSlots), j);
  }

  lemma WindowInv(w: PacketQ)
    requires RxWindow(w)
    ensures w.Inv()
  {
  }

  lemma EndsAt(r: Receiver, maxSlots: nat, behind: SackField, s: AckStep, j: int)
    requires r.txQ.Inv() && Reached(r.rxQ, r.txQ, s, j) && Runs(r.rxQ, r.txQ, s.st, j) && s.st.fields[MAX_SACKS] == behind
    requires Small(r.rxQ) ==> Exact(r.rxQ, r.seqAck, s.st, j)
    requires var h := Max(r.rxQ.rdSeq, Min(r.rxQ.rdMax, r.rxQ.rdSeq + maxSlots));
             && r.rxQ.rdSeq <= j <= h && (s.stop <==> j < h) && (s.stop ==> s.st.fieldIdx >= MAX_SACKS && Room(r.txQ) == |s.st.log|)
    ensures Ended(r, maxSlots, behind, s)
  {
    hide Reached, Exact, Room, Wants, ClosedRuns, Window.Inv, StopAt;
    StopAtIs(r.rxQ, 12 * Room(r.txQ) + 12, j, Horizon(r.rxQ, maxSlots));
  }
}
