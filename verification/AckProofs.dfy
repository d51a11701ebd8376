/** What generateAcks acknowledges.  The loop is followed from the state of the receive
    window at the call (rx) to the local state before iteration i (st). */
module AckProofs {
  import opened Basics
  import opened RingWindow
  import opened Packets
  import opened Sender
  import opened Receiver

  // Acknowledged packets form a prefix of the window.
  ghost predicate AckedPrefix(w: PacketQ) {
    forall a, b | w.rdSeq <= a < b && w.Has(a) && w.Has(b) :: w.At(b).buff.dat.ackSent ==> w.At(a).buff.dat.ackSent
  }

  /** The receive window: between the edges every slot is full, each full slot holds the
      data packet of its number, and what has been acknowledged is a prefix. */
  ghost predicate RxWindow(w: PacketQ) {
    && w.Inv()
    && (forall t | w.rdSeq <= t < w.wrSeq :: w.Has(t))
    && (forall t | w.Has(t) :: w.At(t).buff.dat.seqNum == t && !w.At(t).buff.dat.staleDat)
    && (forall t | w.Has(t) && w.At(t).buff.dat.ackSent :: t < w.wrSeq)
    && AckedPrefix(w)
  }

  // Every packet below n that is still in the window counts as acknowledged.
  ghost predicate AckEdge(w: PacketQ, n: int) {
    0 <= n <= w.wrSeq && forall t | w.Has(t) && !w.At(t).buff.dat.ackSent :: n <= t
  }

  predicate Wants(w: PacketQ, t: int) {
    w.Has(t) && !w.At(t).buff.dat.ackSent && !w.At(t).buff.dat.noAck
  }

  // The packets below hi that still want an acknowledgement, in order.
  function Wanted(w: PacketQ, hi: int): seq<int>
    decreases hi - w.rdSeq
  {
    if hi <= w.rdSeq then [] else Wanted(w, hi - 1) + if Wants(w, hi - 1) then [hi - 1] else []
  }

  lemma {:induction false} WantedExact(w: PacketQ, hi: int)
    ensures forall t :: t in Wanted(w, hi) <==> t < hi && Wants(w, t)
    decreases hi - w.rdSeq
  {
    assert forall t | Wants(w, t) :: t >= w.rdSeq;
    hide Wants;
    if hi > w.rdSeq { WantedExact(w, hi - 1); }
  }

  lemma {:induction false} WantedIncreasing(w: PacketQ, hi: int)
    ensures forall j, k | 0 <= j < k < |Wanted(w, hi)| :: Wanted(w, hi)[j] < Wanted(w, hi)[k] < hi
    ensures forall k | 0 <= k < |Wanted(w, hi)| :: Wanted(w, hi)[k] < hi
    decreases hi - w.rdSeq
  {
    hide Wants;
    if hi > w.rdSeq { WantedIncreasing(w, hi - 1); }
  }

  // All that a sequence of SACKs acknowledges, in order.
  function Flatten(log: seq<Sack>): seq<int> {
    if log == [] then [] else Flatten(log[..|log| - 1]) + Expand(Last(log).base, Last(log).fields)
  }

  lemma FlattenSnoc(log: seq<Sack>, s: Sack)
    ensures Flatten(log + [s]) == Flatten(log) + Expand(s.base, s.fields)
  {
    assert (log + [s])[..|log|] == log;
  }

  lemma ExpandSnoc(base: int, fs: seq<SackField>, f: SackField)
    ensures Expand(base, fs + [f]) == Expand(base, fs) + Range(base + f.offset, f.count)
  {
    assert (fs + [f])[..|fs|] == fs;
  }

  predicate Counts(base: int, f: SackField, t: int) { base + f.offset <= t < base + f.offset + f.count }

  /** What a SACK names: the numbers that one of its fields counts from its offset on. */
  lemma {:induction false} ExpandExact(base: int, fs: seq<SackField>)
    ensures forall t :: t in Expand(base, fs) <==> exists f :: f in fs && Counts(base, f, t)
  {
    if fs != [] {
      var init, last := fs[..|fs| - 1], Last(fs);
      ExpandExact(base, init);
      RangeMembers(base + last.offset, last.count);
      assert forall t :: t in Expand(base, fs) <==> t in Expand(base, init) || Counts(base, last, t);
      hide Expand, Counts;
      assert fs == init + [last];
      assert forall f :: f in fs <==> f in init || f == last;
    }
  }

  // The fields after one more packet has been counted.
  lemma GrowField(base: int, fs: seq<SackField>, f: SackField)
    ensures Expand(base, fs + [f.(count := f.count + 1)]) ==
            Expand(base, fs + [f]) + [base + f.offset + f.count]
  {
    ExpandSnoc(base, fs, f);
    ExpandSnoc(base, fs, f.(count := f.count + 1));
    assert Range(base + f.offset, f.count + 1) == Range(base + f.offset, f.count) + [base + f.offset + f.count];
  }

  // The SACKs that the sender takes notice of.
  function Accepted(log: seq<Sack>): seq<Sack> {
    if log == [] then []
    else Accepted(log[..|log| - 1]) + if Accepts(Last(log)) then [Last(log)] else []
  }

  lemma {:induction false} AllRejected(log: seq<Sack>)
    requires forall s | s in log :: !Accepts(s)
    ensures Accepted(log) == []
    ensures (forall s | s in log :: |Expand(s.base, s.fields)| > 0) && log != [] ==> Flatten(log) != []
  {
    if log != [] {
      var init, last := log[..|log| - 1], Last(log);
      assert log == init + [last];
      AllRejected(init);
    }
  }

  lemma AcceptedOne(log: seq<Sack>, sack: Sack)
    requires (forall s | s in log :: !Accepts(s)) && |sack.fields| == sack.sackCount
    ensures Flatten(Accepted(log + [sack])) == Expand(sack.base, sack.fields)
  {
    AllRejected(log);
    AcceptedSnoc(log, sack);
    FlattenSnoc([], sack);
    assert [] + [sack] == [sack];
    assert Flatten([]) == [];
  }

  lemma AcceptedSnoc(log: seq<Sack>, s: Sack)
    requires Accepts(s)
    ensures Accepted(log + [s]) == Accepted(log) + [s]
  {
    assert (log + [s])[..|log|] == log;
  }

  lemma FlattenNone()
    ensures Flatten([]) == [] && Flatten(Accepted([])) == []
  {
  }

  lemma RangeMembers(start: int, count: nat)
    ensures forall t :: t in Range(start, count) <==> start <= t < start + count
  {
    forall t ensures t in Range(start, count) <==> start <= t < start + count {
      if start <= t < start + count { assert Range(start, count)[t - start] == t; }
    }
  }

  // A SACK that acknowledges nothing from hi on.
  ghost predicate SackBelow(s: Sack, hi: int) {
    forall t | t in Expand(s.base, s.fields) :: 0 <= t < hi
  }

  // No field ends beyond hi.
  predicate Below(base: int, fs: seq<SackField>, hi: int) {
    base >= 0 && forall k | 0 <= k < |fs| :: base + fs[k].offset + fs[k].count <= hi
  }

  lemma {:induction false} BelowExpand(base: int, fs: seq<SackField>, hi: int)
    requires Below(base, fs, hi)
    ensures forall t | t in Expand(base, fs) :: 0 <= t < hi
  {
    if fs != [] {
      BelowExpand(base, fs[..|fs| - 1], hi);
      var f := Last(fs);
      assert f == fs[|fs| - 1];
      RangeMembers(base + f.offset, f.count);
    }
  }

  // ---- The loop: what holds before iteration i, whatever the widths ----

  // The window has been marked below i and is otherwise as it was.
  ghost predicate Marked(rx: PacketQ, w: PacketQ, i: int) {
    && w.Inv() && w.Count() == rx.Count() && w.rdSeq == rx.rdSeq && w.wrSeq == rx.wrSeq && w.rdMax == rx.rdMax
    && w.readable == rx.readable
    && forall t | rx.InRange(t) ::
         w.At(t) == if t < i && rx.At(t).valid then rx.At(t).(buff := MarkAcked(rx.At(t).buff)) else rx.At(t)
  }

  ghost predicate FieldsOk(st: AckScan, i: int) {
    && st.Ok()
    && (st.unsent > 0 <==> st.Open() > 0)
    && (forall k | st.Open() <= k < MAX_SACKS :: st.fields[k] == NO_FIELD)
    && (st.Open() > 0 ==> st.base == st.seqAck)
    && Below(st.base, st.fields[..st.Open()], i)
  }

  // The acknowledged edge stays at or below the first packet not yet acknowledged.
  ghost predicate EdgeOk(rx: PacketQ, st: AckScan, i: int) {
    0 <= st.seqAck <= rx.wrSeq && forall t | t >= i && rx.Has(t) && !rx.At(t).buff.dat.ackSent :: st.seqAck <= t
  }

  ghost predicate LogBelow(log: seq<Sack>, hi: int) {
    forall s | s in log :: SackBelow(s, hi)
  }

  ghost predicate Scanning(rx: PacketQ, st: AckScan, i: int) {
    && rx.rdSeq <= i <= rx.wrSeq + 1
    && Marked(rx, st.rxQ, i) && FieldsOk(st, Min(i, rx.wrSeq)) && EdgeOk(rx, st, i) && LogBelow(st.log, rx.wrSeq)
  }

  lemma MarkStep(rx: PacketQ, w: PacketQ, i: int)
    requires rx.Inv() && Marked(rx, w, i) && rx.Has(i)
    ensures w.Has(i) && w.At(i) == rx.At(i) && Marked(rx, w.Put(i, MarkAcked(rx.At(i).buff)), i + 1)
  {
  }

  lemma MarkSkip(rx: PacketQ, w: PacketQ, i: int)
    requires rx.Inv() && Marked(rx, w, i) && rx.InRange(i)
    requires !rx.At(i).valid || rx.At(i).buff.dat.ackSent
    ensures Marked(rx, w, i + 1)
  {
  }

  lemma CloseFacts(st: AckScan, hi: int, hi': int)
    requires FieldsOk(st, hi) && hi <= hi'
    ensures FieldsOk(st.Close(), hi') && FieldsOk(st, hi')
  {
  }

  // Counting packet i into the field in progress, or into one opened for it.
  lemma CountFacts(st: AckScan, p: Packet, i: int)
    requires FieldsOk(st, i) && st.fieldIdx < MAX_SACKS && 0 <= st.seqAck <= i && p.dat.seqNum == i
    ensures var o := OpenField(st, p);
            var f := o.fields[st.fieldIdx];
            var r := o.(unsent := st.unsent + 1, fields := o.fields[st.fieldIdx := f.(count := Wrap32(f.count + 1))]);
            FieldsOk(r, i + 1) && r.seqAck == st.seqAck && r.log == st.log
  {
    var o := OpenField(st, p);
    var f := o.fields[st.fieldIdx];
    var r := o.(unsent := st.unsent + 1, fields := o.fields[st.fieldIdx := f.(count := Wrap32(f.count + 1))]);
    assert forall k | 0 <= k < st.fieldIdx :: r.fields[..r.Open()][k] == st.fields[..st.Open()][k];
    if st.inProgress { assert st.fields[..st.Open()][st.fieldIdx] == f; }
  }

  lemma SlotSkipped(rx: PacketQ, st: AckScan, i: int)
    requires RxWindow(rx) && Scanning(rx, st, i) && st.fieldIdx < MAX_SACKS && rx.InRange(i) && i <= rx.wrSeq
    requires !rx.At(i).valid || rx.At(i).buff.dat.ackSent
    ensures !ScanSlot(st, i).stop && ScanSlot(st, i).err == NoError && Scanning(rx, ScanSlot(st, i).st, i + 1)
  {
    assert st.rxQ.InRange(i) && st.rxQ.At(i) == rx.At(i);
    MarkSkip(rx, st.rxQ, i);
    CloseFacts(st, Min(i, rx.wrSeq), Min(i + 1, rx.wrSeq));
    hide Marked, FieldsOk;
  }

  lemma SlotTaken(rx: PacketQ, st: AckScan, i: int)
    requires RxWindow(rx) && Scanning(rx, st, i) && st.fieldIdx < MAX_SACKS && rx.Has(i) && i <= rx.wrSeq
    requires !rx.At(i).buff.dat.ackSent
    ensures !ScanSlot(st, i).stop && ScanSlot(st, i).err == NoError && Scanning(rx, ScanSlot(st, i).st, i + 1)
  {
    var p := rx.At(i).buff;
    MarkStep(rx, st.rxQ, i);
    assert 0 <= st.seqAck <= i && p.dat.seqNum == i;
    assert i < rx.wrSeq;
    if p.dat.noAck { CloseFacts(st, i, i + 1); } else { CountFacts(st, p, i); }
    assert EdgeOk(rx, st, i + 1);
    hide FieldsOk, Marked, RxWindow, EdgeOk;
  }

  lemma SlotFacts(rx: PacketQ, st: AckScan, i: int)
    requires RxWindow(rx) && Scanning(rx, st, i) && i < rx.rdMax && st.fieldIdx < MAX_SACKS
    ensures !ScanSlot(st, i).stop && ScanSlot(st, i).err == NoError && Scanning(rx, ScanSlot(st, i).st, i + 1)
  {
    assert rx.InRange(i) && i <= rx.wrSeq;
    hide Scanning, ScanSlot, RxWindow;
    if !rx.At(i).valid || rx.At(i).buff.dat.ackSent {
      SlotSkipped(rx, st, i);
    } else {
      SlotTaken(rx, st, i);
    }
  }

  /** Queueing a SACK: it is refused if and only if the window is full, and then nothing changes.
      Otherwise it takes the slot at the write edge.  It sets what kind of packet that slot holds
      and the SACK; the transmission state is the one that the slot was left in. */
  lemma PushSackExact(w: PacketQ, sack: Sack)
    requires w.Inv()
    ensures var (v, err) := PushSack(w, sack);
            var s := w.wrSeq;
            && (err == TryAgain <==> s == w.rdSeq + w.Count()) && (err == TryAgain ==> v == w)
            && err in {NoError, TryAgain}
            && (err == NoError ==>
                  && v.Inv() && v.rdSeq == w.rdSeq && v.Count() == w.Count() && v.wrSeq > s && w.InRange(s) && !w.Has(s)
                  && v.Has(s) && v.At(s).len == w.At(s).len
                  && v.At(s).buff == Packet(w.At(s).buff.txState, KindAck, w.At(s).buff.dat, sack)
                  && (forall t | w.InRange(t) && t != s :: v.At(t) == w.At(t))
                  && (forall t | s <= t < v.wrSeq :: v.Has(t)))
  {
    if w.wrSeq < w.rdSeq + w.Count() {
      var v := w.Put(w.wrSeq, w.At(w.wrSeq).buff.(kind := KindAck, sack := sack));
      CommitFacts(v, w.wrSeq, w.At(w.wrSeq).len);
      hide Commit;
      assert PushSack(w, sack).0.wrSeq > w.wrSeq by {
        assert Commit(v, w.wrSeq, w.At(w.wrSeq).len).0.At(w.wrSeq).valid;
      }
    }
  }

  // A slot that took one of the logged SACKs, and is otherwise as it was.
  predicate TookSack(c: Slot<Packet>, c': Slot<Packet>, log: seq<Sack>) {
    && !c.valid && c'.buff.sack in log
    && c' == Slot(c.len, c.buff.(kind := KindAck, sack := c'.buff.sack), true)
  }

  // Every slot is as it was or took one of the logged SACKs.
  ghost predicate TxGrew(tx: PacketQ, tx': PacketQ, log: seq<Sack>) {
    && tx'.Inv() && tx'.rdSeq == tx.rdSeq && tx'.Count() == tx.Count()
    && forall t | tx.InRange(t) :: tx'.At(t) == tx.At(t) || TookSack(tx.At(t), tx'.At(t), log)
  }

  // Every queued packet was there before or carries one of the logged SACKs.
  lemma GrewHas(tx: PacketQ, tx': PacketQ, log: seq<Sack>)
    requires TxGrew(tx, tx', log)
    ensures forall t | tx'.Has(t) ::
              (tx.Has(t) && tx'.At(t) == tx.At(t)) || (tx'.At(t).buff.kind == KindAck && tx'.At(t).buff.sack in log)
  {
    assert forall t | tx'.Has(t) :: tx.InRange(t);
  }

  lemma PushFacts(tx: PacketQ, w: PacketQ, log: seq<Sack>, sack: Sack)
    requires tx.Inv() && TxGrew(tx, w, log)
    ensures var (r, err) := PushSack(w, sack);
            && (err == NoError || (err == TryAgain && r == w))
            && TxGrew(tx, r, if err == NoError then log + [sack] else log)
  {
    PushSackExact(w, sack);
    hide PushSack, Window.Inv;
    var r := PushSack(w, sack).0;
    assert forall a | a in log :: a in log + [sack];
    forall t | tx.InRange(t) && PushSack(w, sack).1 == NoError
      ensures r.At(t) == tx.At(t) || TookSack(tx.At(t), r.At(t), log + [sack])
    {
      assert w.InRange(t);
      if t == w.wrSeq { assert !w.At(t).valid; }
    }
  }

  // What one call may still do, from any point of its loop.
  ghost predicate Reached(rx: PacketQ, tx: PacketQ, s: AckStep, j: int) {
    && Scanning(rx, s.st, j) && TxGrew(tx, s.st.txQ, s.st.log)
    && (if s.stop then s.err == TryAgain else s.err == NoError)
  }

  lemma FlushFacts(rx: PacketQ, tx: PacketQ, st: AckScan, i: int)
    requires RxWindow(rx) && Scanning(rx, st, i) && i <= rx.wrSeq && st.fieldIdx >= MAX_SACKS
    requires tx.Inv() && TxGrew(tx, st.txQ, st.log)
    ensures Reached(rx, tx, Flush(st, 0, MAX_SACKS), i)
    ensures Flush(st, 0, MAX_SACKS).stop || Flush(st, 0, MAX_SACKS).st.fieldIdx == 0
  {
    hide PushSack, TxGrew, Marked, Expand, Window.Inv;
    PushFacts(tx, st.txQ, st.log, Sack(st.base, 0, st.fields[..MAX_SACKS]));
    assert st.Open() == MAX_SACKS;
    BelowExpand(st.base, st.fields[..MAX_SACKS], i);
    var r := Flush(st, 0, MAX_SACKS).st;
    assert st.fields[..MAX_SACKS][0] == st.fields[0];
  }

  lemma AckAtFacts(rx: PacketQ, tx: PacketQ, st: AckScan, i: int)
    requires RxWindow(rx) && tx.Inv() && Scanning(rx, st, i) && TxGrew(tx, st.txQ, st.log) && i < rx.rdMax
    ensures var s := AckAt(st, i);
            Reached(rx, tx, s, if s.stop then i else i + 1)
  {
    assert i <= rx.wrSeq;
    hide Scanning, TxGrew, Flush, RxWindow, ScanSlot, AckScan.Ok;
    ScanBounds(rx, st, i);
    var f := if st.fieldIdx >= MAX_SACKS then Flush(st, 0, MAX_SACKS) else AckStep(st, false, NoError);
    if st.fieldIdx >= MAX_SACKS { FlushFacts(rx, tx, st, i); }
    if !f.stop {
      ScanBounds(rx, f.st, i);
      SlotFacts(rx, f.st, i);
      SlotKeepsTx(f.st, i);
    }
  }

  lemma SlotKeepsTx(st: AckScan, i: int)
    requires st.Ok() && st.fieldIdx < MAX_SACKS
    ensures var s := ScanSlot(st, i).st; s.txQ == st.txQ && s.log == st.log && s.seqAck == st.seqAck
  {
  }

  lemma ScanBounds(rx: PacketQ, st: AckScan, i: int)
    requires Scanning(rx, st, i)
    ensures st.Ok() && i <= rx.wrSeq + 1
    ensures st.rxQ.rdMax == rx.rdMax && st.rxQ.rdSeq == rx.rdSeq && st.rxQ.wrSeq == rx.wrSeq
  {
  }

  // The last SACK of a call reads past the field buffer.
  predicate Overreads(s: AckStep) {
    !s.stop && s.st.unsent > 0 && s.st.fieldIdx == MAX_SACKS && s.st.fields[MAX_SACKS].count > 0
  }

  // The fields of the last SACK: those that were opened, and one more if the last was closed.
  lemma LastFields(st: AckScan)
    requires st.Ok() && st.Open() > 0
    ensures st.fieldIdx + 1 <= MAX_SACKS + 1
    ensures st.fields[..st.fieldIdx + 1] ==
            if st.inProgress then st.fields[..st.Open()] else st.fields[..st.Open()] + [st.fields[st.fieldIdx]]
  {
  }

  lemma LastBelow(st: AckScan, i: int)
    requires FieldsOk(st, i) && st.Open() > 0
    requires st.fieldIdx == MAX_SACKS ==> st.fields[MAX_SACKS].count == 0
    ensures SackBelow(Sack(st.base, st.fieldIdx + 1, st.fields[..st.fieldIdx + 1]), i)
  {
    LastFields(st);
    BelowExpand(st.base, st.fields[..st.Open()], i);
    ExpandSnoc(st.base, st.fields[..st.Open()], st.fields[st.fieldIdx]);
  }

  // What a call leaves behind, whatever it returned.
  ghost predicate Done(rx: PacketQ, tx: PacketQ, r: AckStep, j: int) {
    && Marked(rx, r.st.rxQ, j) && j <= rx.wrSeq + 1
    && EdgeOk(rx, r.st, j)
    && TxGrew(tx, r.st.txQ, r.st.log)
    && r.err in {NoError, TryAgain}
  }

  lemma EndIs(s: AckStep)
    requires s.st.Ok()
    ensures s.st.txQ.Inv() && s.st.fieldIdx + 1 <= MAX_SACKS + 1
    ensures AckEnd(s) == if s.stop || s.st.unsent == 0 then s else Flush(s.st, s.st.fieldIdx + 1, s.st.fieldIdx + 1)
    ensures s.st.Open() == 0 || s.st.Open() > 0
  {
    hide PushSack;
  }

  lemma EndDone(rx: PacketQ, tx: PacketQ, s: AckStep, j: int)
    requires RxWindow(rx) && tx.Inv() && Reached(rx, tx, s, j)
    ensures Done(rx, tx, AckEnd(s), j)
  {
    hide *;
    ScanDone(rx, tx, s, j);
    EndIs(s);
    if !s.stop && s.st.unsent > 0 { FinalFlush(rx, tx, s.st, j); }
  }

  lemma EndBelow(rx: PacketQ, tx: PacketQ, s: AckStep, j: int)
    requires RxWindow(rx) && tx.Inv() && Reached(rx, tx, s, j) && !Overreads(s)
    ensures LogBelow(AckEnd(s).st.log, rx.wrSeq)
  {
    hide *;
    ScanDone(rx, tx, s, j);
    EndIs(s);
    NoOverread(s);
    if !s.stop && s.st.unsent > 0 { FinalBelow(rx, tx, s.st, j); }
  }

  lemma NoOverread(s: AckStep)
    requires !Overreads(s)
    ensures s.stop || s.st.unsent == 0 || s.st.fieldIdx != MAX_SACKS || s.st.fields[MAX_SACKS].count == 0
  {
  }

  lemma FinalBelow(rx: PacketQ, tx: PacketQ, st: AckScan, j: int)
    requires RxWindow(rx) && tx.Inv() && Scanning(rx, st, j) && TxGrew(tx, st.txQ, st.log)
    requires FieldsOk(st, Min(j, rx.wrSeq)) && LogBelow(st.log, rx.wrSeq) && st.unsent > 0 && st.Open() > 0
    requires st.fieldIdx == MAX_SACKS ==> st.fields[MAX_SACKS].count == 0
    ensures LogBelow(Flush(st, st.fieldIdx + 1, st.fieldIdx + 1).st.log, rx.wrSeq)
  {
    assert st.fieldIdx <= MAX_SACKS;
    hide Flush, Scanning, TxGrew, FieldsOk, RxWindow, Done, SackBelow, LogBelow;
    FinalFlush(rx, tx, st, j);
    LastBelow(st, Min(j, rx.wrSeq));
    LogSnoc(st.log, Sack(st.base, st.fieldIdx + 1, st.fields[..st.fieldIdx + 1]), Min(j, rx.wrSeq), rx.wrSeq);
  }

  lemma LogSnoc(log: seq<Sack>, sack: Sack, hi: int, hi': int)
    requires LogBelow(log, hi') && SackBelow(sack, hi) && hi <= hi'
    ensures LogBelow(log + [sack], hi')
  {
  }

  lemma ScanDone(rx: PacketQ, tx: PacketQ, s: AckStep, j: int)
    requires Reached(rx, tx, s, j)
    ensures Done(rx, tx, s, j) && LogBelow(s.st.log, rx.wrSeq)
    ensures Scanning(rx, s.st, j) && TxGrew(tx, s.st.txQ, s.st.log)
    ensures s.st.Ok() && FieldsOk(s.st, Min(j, rx.wrSeq)) && (s.st.unsent > 0 <==> s.st.Open() > 0)
  {
  }

  lemma FinalFlush(rx: PacketQ, tx: PacketQ, st: AckScan, j: int)
    requires RxWindow(rx) && tx.Inv() && Scanning(rx, st, j) && TxGrew(tx, st.txQ, st.log) && st.unsent > 0
    ensures var r := Flush(st, st.fieldIdx + 1, st.fieldIdx + 1);
            var sack := Sack(st.base, st.fieldIdx + 1, st.fields[..st.fieldIdx + 1]);
            && Done(rx, tx, r, j)
            && r.st.log == if r.err == NoError then st.log + [sack] else st.log
  {
    var sack := Sack(st.base, st.fieldIdx + 1, st.fields[..st.fieldIdx + 1]);
    PushFacts(tx, st.txQ, st.log, sack);
    assert st.fields[..st.Open()][0] == st.fields[0];
    hide PushSack, TxGrew, Marked;
  }
}
