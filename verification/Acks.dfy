/** What one call of generateAcks does to a receiver, on whichever path it returns, and which
    calls acknowledge too much: all in terms of the state before the call. */
module Acks {
  import opened Basics
  import opened RingWindow
  import opened Packets
  import opened Sender
  import opened Receiver
  import opened AckProofs
  import opened AckExact
  import opened AckRuns

  lemma MarkedWindow(rx: PacketQ, w: PacketQ, j: int)
    requires RxWindow(rx) && Marked(rx, w, j) && j <= rx.wrSeq + 1
    ensures RxWindow(w)
  {
    forall t ensures w.Has(t) <==> rx.Has(t) {
      if rx.InRange(t) { assert w.At(t).valid == rx.At(t).valid; }
    }
  }

  lemma MarkedEdge(rx: PacketQ, st: AckScan, j: int)
    requires RxWindow(rx) && Marked(rx, st.rxQ, j) && EdgeOk(rx, st, j)
    ensures AckEdge(st.rxQ, st.seqAck)
  {
    var w := st.rxQ;
    forall t | w.Has(t) && !w.At(t).buff.dat.ackSent ensures st.seqAck <= t {
      assert rx.Has(t) && t >= j;
    }
  }

  // Equal but for acknowledgement marks.
  ghost predicate SameWindow(rx: PacketQ, w: PacketQ) {
    && w.rdSeq == rx.rdSeq && w.wrSeq == rx.wrSeq && w.Count() == rx.Count()
    && w.rdMax == rx.rdMax && w.readable == rx.readable
    && forall t | rx.InRange(t) ::
         var p, q := rx.At(t).buff, w.At(t).buff;
         && w.At(t) == rx.At(t).(buff := q) && q == p.(dat := p.dat.(ackSent := q.dat.ackSent))
         && (p.dat.ackSent ==> q.dat.ackSent)
  }

  lemma MarkedSame(rx: PacketQ, w: PacketQ, j: int)
    requires Marked(rx, w, j)
    ensures SameWindow(rx, w)
  {
  }

  // ---- The end of a call ----

  // At the end of the loop: the SACKs sent so far, and whether one more is due.
  lemma EndNeeds(r: Receiver, maxSlots: nat, behind: SackField, s: AckStep)
    requires Ended(r, maxSlots, behind, s)
    ensures var h, room, need := Horizon(r.rxQ, maxSlots), Room(r.txQ), SacksNeeded(r.rxQ, Horizon(r.rxQ, maxSlots));
            && s.st.Ok() && s.st.txQ.Inv()
            && (s.stop ==> room < need)
            && (!s.stop ==> (room >= need <==> s.st.unsent == 0 || Room(s.st.txQ) > 0))
            && (!s.stop ==> Reach(r, maxSlots) == h)
            && (!s.stop ==> |s.st.log| == ClosedRuns(r.rxQ, h - 1) / 12)
            && (Overreads(s) <==> !s.stop && behind.count > 0 && FillsBuffer(r.rxQ, h))
  {
    hide Room, Marked, EdgeOk, LogBelow, TxGrew, Below, Exact, Window.Inv, StopAt;
    var h, j := Horizon(r.rxQ, maxSlots), Reach(r, maxSlots);
    NeedsBetween(r.rxQ, r.txQ, s.st, j);
    if s.stop {
      ClosedMono(r.rxQ, j, h - 1);
      NeedsFull(r.rxQ, h, |s.st.log|);
    } else {
      StopAtEnd(r.rxQ, 12 * Room(r.txQ) + 12, h);
    }
    hide Wants, ClosedRuns;
  }

  lemma StopAtEnd(w: PacketQ, n: nat, hi: int)
    ensures StopAt(w, n, hi) <= hi
  {
  }

  lemma NeedsFull(w: PacketQ, h: int, n: nat)
    requires ClosedRuns(w, h - 1) >= 12 * n + 12
    ensures SacksNeeded(w, h) >= n + 1
  {
    hide ClosedRuns, Wants;
  }

  lemma NeedsBetween(rx: PacketQ, tx: PacketQ, st: AckScan, h: int)
    requires Runs(rx, tx, st, h)
    ensures |st.log| == ClosedRuns(rx, h - 1) / 12
    ensures SacksNeeded(rx, h) == |st.log| + if st.Open() > 0 then 1 else 0
    ensures FillsBuffer(rx, h) <==> st.fieldIdx == MAX_SACKS
    ensures Room(st.txQ) + |st.log| == Room(tx)
  {
    ClosedStep(rx, h);
    hide ClosedRuns, Wants, Room;
  }

  lemma ClosedStep(w: PacketQ, h: int)
    ensures ClosedRuns(w, h - 1) <= ClosedRuns(w, h) <= ClosedRuns(w, h - 1) + 1
  {
  }

  // The end of the call, from the end of the loop.
  lemma CallResult(r: Receiver, maxAckPackets: int, maxSlots: nat, behind: SackField)
    requires r.rxQ.Inv() && r.txQ.Inv() && maxAckPackets > 0 && r.rxQ.readable != 0
    ensures var e := AckEnd(AckLoop(AckStart(r, behind), r.rxQ.rdSeq, maxSlots));
            GenerateAcks(r, maxAckPackets, maxSlots, behind) ==
            (r.(rxQ := e.st.rxQ, txQ := e.st.txQ, seqAck := e.st.seqAck), e.err, e.st.log)
  {
    hide AckLoop, AckEnd, AckStart;
  }

  lemma Unchanged(r: Receiver, maxAckPackets: int, maxSlots: nat, behind: SackField)
    requires r.rxQ.Inv() && r.txQ.Inv() && (maxAckPackets <= 0 || r.rxQ.readable == 0)
    ensures GenerateAcks(r, maxAckPackets, maxSlots, behind) == (r, NoError, [])
    ensures SameWindow(r.rxQ, r.rxQ) && TxGrew(r.txQ, r.txQ, []) && LogBelow([], r.rxQ.wrSeq)
  {
    hide AckLoop, AckEnd, AckStart;
  }

  lemma EndedIs(r: Receiver, maxSlots: nat, behind: SackField, s: AckStep)
    requires Ended(r, maxSlots, behind, s)
    ensures var j := Reach(r, maxSlots);
            && Reached(r.rxQ, r.txQ, s, j) && Runs(r.rxQ, r.txQ, s.st, j)
            && (Small(r.rxQ) ==> Exact(r.rxQ, r.seqAck, s.st, j))
            && s.st.fields[MAX_SACKS] == behind
  {
    hide Reached, Runs, Exact;
  }

  lemma DoneIs(rx: PacketQ, tx: PacketQ, r: AckStep, j: int)
    requires Done(rx, tx, r, j)
    ensures Marked(rx, r.st.rxQ, j) && j <= rx.wrSeq + 1 && EdgeOk(rx, r.st, j) && TxGrew(tx, r.st.txQ, r.st.log)
    ensures r.err in {NoError, TryAgain}
  {
  }

  // What the last send does, given the room there is for it.
  lemma EndSends(r: Receiver, maxSlots: nat, behind: SackField, s: AckStep)
    requires Ended(r, maxSlots, behind, s)
    ensures s.st.Ok()
    ensures var e, st := AckEnd(s), s.st;
            var sack := Sack(st.base, st.fieldIdx + 1, st.fields[..st.fieldIdx + 1]);
            && (e.err == NoError <==> Room(r.txQ) >= SacksNeeded(r.rxQ, Horizon(r.rxQ, maxSlots)))
            && e.st.log == if e.err == NoError && st.unsent > 0 then st.log + [sack] else st.log
  {
    hide *;
    EndNeeds(r, maxSlots, behind, s);
    EndIs(s);
    SendIs(s.st);
    StopErr(r, maxSlots, behind, s);
  }

  lemma StopErr(r: Receiver, maxSlots: nat, behind: SackField, s: AckStep)
    requires Ended(r, maxSlots, behind, s)
    ensures s.err == if s.stop then TryAgain else NoError
  {
    hide Scanning, TxGrew, Runs, Exact;
  }

  lemma SendIs(st: AckScan)
    requires st.Ok()
    ensures st.txQ.Inv()
    ensures var f := Flush(st, st.fieldIdx + 1, st.fieldIdx + 1);
            var sack := Sack(st.base, st.fieldIdx + 1, st.fields[..st.fieldIdx + 1]);
            if Room(st.txQ) == 0 then f.err == TryAgain && f.st == st
            else f.err == NoError && f.st.log == st.log + [sack]
  {
    PushRoom(st.txQ, Sack(st.base, st.fieldIdx + 1, st.fields[..st.fieldIdx + 1]));
    hide PushSack, Room;
  }

  // ---- What every call keeps ----

  /** A call stays in its field buffer unless the last slot it looks at closes its twelfth
      field and there is room for the SACK that is then sent with thirteen. */
  predicate StaysInBuffer(r: Receiver, maxAckPackets: int, maxSlots: nat, behind: SackField)
    requires r.rxQ.Inv() && r.txQ.Inv()
  {
    var h := Horizon(r.rxQ, maxSlots);
    || maxAckPackets <= 0 || r.rxQ.readable == 0
    || behind.count == 0 || !FillsBuffer(r.rxQ, h) || Room(r.txQ) < SacksNeeded(r.rxQ, h)
  }

  // The SACKs that are sent name nothing that has not arrived.
  lemma EndSound(r: Receiver, maxSlots: nat, behind: SackField, s: AckStep)
    requires RxWindow(r.rxQ) && Ended(r, maxSlots, behind, s) && r.txQ.Inv()
    requires var h := Horizon(r.rxQ, maxSlots);
             behind.count == 0 || !FillsBuffer(r.rxQ, h) || Room(r.txQ) < SacksNeeded(r.rxQ, h)
    ensures s.st.Ok() && LogBelow(AckEnd(s).st.log, r.rxQ.wrSeq)
  {
    hide *;
    EndNeeds(r, maxSlots, behind, s);
    EndedIs(r, maxSlots, behind, s);
    var j := Reach(r, maxSlots);
    ScanDone(r.rxQ, r.txQ, s, j);
    if Overreads(s) {
      EndSends(r, maxSlots, behind, s);
    } else {
      EndBelow(r.rxQ, r.txQ, s, j);
    }
  }

  /** Any call, whatever transmission control asks for: the receive window stays well formed
      and changes in its acknowledgement marks alone, the marks stay a prefix of the window,
      the acknowledged edge does not pass the first packet that is still unacknowledged, and
      what is queued for sending acknowledges nothing that has not arrived.  The last holds
      as long as the call stays in its field buffer. */
  lemma GenerateAcksKeeps(r: Receiver, maxAckPackets: int, maxSlots: nat, behind: SackField)
    requires RxWindow(r.rxQ) && AckEdge(r.rxQ, r.seqAck) && r.txQ.Inv()
    ensures r.rxQ.Inv()
    ensures var (r', err, log) := GenerateAcks(r, maxAckPackets, maxSlots, behind);
            && RxWindow(r'.rxQ) && SameWindow(r.rxQ, r'.rxQ)
            && AckEdge(r'.rxQ, r'.seqAck)
            && TxGrew(r.txQ, r'.txQ, log)
            && r'.staleQ == r.staleQ
            && err in {NoError, TryAgain}
            && (StaysInBuffer(r, maxAckPackets, maxSlots, behind) ==> LogBelow(log, r.rxQ.wrSeq))
  {
    hide *;
    WindowInv(r.rxQ);
    if maxAckPackets <= 0 || r.rxQ.readable == 0 {
      Unchanged(r, maxAckPackets, maxSlots, behind);
    } else {
      CallRuns(r, maxSlots, behind);
      var s := AckLoop(AckStart(r, behind), r.rxQ.rdSeq, maxSlots);
      var j := Reach(r, maxSlots);
      EndedIs(r, maxSlots, behind, s);
      EndDone(r.rxQ, r.txQ, s, j);
      StaysIs(r, maxAckPackets, maxSlots, behind);
      if StaysInBuffer(r, maxAckPackets, maxSlots, behind) { EndSound(r, maxSlots, behind, s); }
      DoneIs(r.rxQ, r.txQ, AckEnd(s), j);
      MarkedWindow(r.rxQ, AckEnd(s).st.rxQ, j);
      MarkedEdge(r.rxQ, AckEnd(s).st, j);
      MarkedSame(r.rxQ, AckEnd(s).st.rxQ, j);
      CallResult(r, maxAckPackets, maxSlots, behind);
    }
  }

  lemma StaysIs(r: Receiver, maxAckPackets: int, maxSlots: nat, behind: SackField)
    requires r.rxQ.Inv() && r.txQ.Inv() && maxAckPackets > 0 && r.rxQ.readable != 0
    ensures StaysInBuffer(r, maxAckPackets, maxSlots, behind)
            <==> (var h := Horizon(r.rxQ, maxSlots);
                  behind.count == 0 || !FillsBuffer(r.rxQ, h) || Room(r.txQ) < SacksNeeded(r.rxQ, h))
  {
    hide Horizon, FillsBuffer, Room, SacksNeeded;
  }

  // ---- The acknowledged edge ----

  // The end of the first field of a SACK.
  function FirstEnd(s: Sack): int
    requires s.fields != []
  {
    s.base + s.fields[0].offset + s.fields[0].count
  }

  // Each SACK starts from where the first field of the one before it ends, the first of them from
  // start; the last one leads to end.
  ghost predicate Chained(start: int, log: seq<Sack>, end: int) {
    if log == [] then end == start
    else
      var last := Last(log);
      last.fields != [] && end == FirstEnd(last) && Chained(start, log[..|log| - 1], last.base)
  }

  lemma ChainedSnoc(start: int, log: seq<Sack>, s: Sack)
    requires s.fields != [] && Chained(start, log, s.base)
    ensures Chained(start, log + [s], FirstEnd(s))
  {
    assert (log + [s])[..|log|] == log && Last(log + [s]) == s;
  }

  lemma FlushChained(start: int, st: AckScan, sackCount: nat, n: nat, hi: int)
    requires st.Ok() && FieldsOk(st, hi) && st.Open() > 0 && 0 < n <= MAX_SACKS + 1 && Chained(start, st.log, st.seqAck)
    ensures var f := Flush(st, sackCount, n).st; Chained(start, f.log, f.seqAck)
  {
    hide Below, Window.Inv, PushSack, Chained;
    ChainedSnoc(start, st.log, Sack(st.base, sackCount, st.fields[..n]));
    assert st.fields[..n][0] == st.fields[0];
  }

  lemma AckAtChained(start: int, rx: PacketQ, st: AckScan, i: int)
    requires st.Ok() && Scanning(rx, st, i) && Chained(start, st.log, st.seqAck)
    ensures var s := AckAt(st, i).st; Chained(start, s.log, s.seqAck)
  {
    hide *;
    AckAtIs(st, i);
    OkIs(st);
    ScanOk(rx, st, i);
    if st.fieldIdx >= MAX_SACKS { FlushChained(start, st, 0, MAX_SACKS, Min(i, rx.wrSeq)); }
    var f := if st.fieldIdx >= MAX_SACKS then Flush(st, 0, MAX_SACKS) else AckStep(st, false, NoError);
    if !f.stop {
      FlushedOk(st);
      SlotKeepsTx(f.st, i);
    }
  }

  lemma ScanOk(rx: PacketQ, st: AckScan, j: int)
    requires Scanning(rx, st, j)
    ensures FieldsOk(st, Min(j, rx.wrSeq)) && st.Ok() && (st.unsent > 0 <==> st.Open() > 0)
    ensures st.fieldIdx >= MAX_SACKS ==> st.Open() > 0
    ensures 0 < MAX_SACKS
  {
    hide Min, Below, Marked, EdgeOk, LogBelow;
  }

  lemma FlushedOk(st: AckScan)
    requires st.Ok()
    ensures var f := if st.fieldIdx >= MAX_SACKS then Flush(st, 0, MAX_SACKS) else AckStep(st, false, NoError);
            !f.stop ==> f.st.Ok() && f.st.fieldIdx < MAX_SACKS
  {
    hide PushSack;
  }

  lemma {:induction false} LoopChained(start: int, rx: PacketQ, tx: PacketQ, st: AckScan, i: int, maxSlots: nat)
    requires RxWindow(rx) && tx.Inv() && st.Ok() && Scanning(rx, st, i) && TxGrew(tx, st.txQ, st.log)
    requires Chained(start, st.log, st.seqAck)
    ensures var s := AckLoop(st, i, maxSlots).st; Chained(start, s.log, s.seqAck)
    decreases rx.wrSeq + 1 - i
  {
    hide AckAt, TxGrew, Scanning, RxWindow, AckScan.Ok, Chained;
    ScanBounds(rx, st, i);
    if i < st.rxQ.rdMax && i < st.rxQ.rdSeq + maxSlots {
      AckAtFacts(rx, tx, st, i);
      AckAtChained(start, rx, st, i);
      var s := AckAt(st, i);
      if !s.stop { LoopChained(start, rx, tx, s.st, i + 1, maxSlots); }
    }
  }

  /** Where the acknowledged edge goes, in any call and whether or not it succeeds: to the end of
      the first field of the last SACK it has sent, from which the next SACK is measured.  It
      stays if none is sent. */
  lemma EdgeExact(r: Receiver, maxAckPackets: int, maxSlots: nat, behind: SackField)
    requires RxWindow(r.rxQ) && AckEdge(r.rxQ, r.seqAck) && r.txQ.Inv() && r.rxQ.Inv()
    ensures var (r', err, log) := GenerateAcks(r, maxAckPackets, maxSlots, behind); Chained(r.seqAck, log, r'.seqAck)
  {
    hide *;
    NoChain(r.seqAck);
    if maxAckPackets <= 0 || r.rxQ.readable == 0 {
      Unchanged(r, maxAckPackets, maxSlots, behind);
    } else {
      var st := AckStart(r, behind);
      RunsStart(r, behind);
      StartIs(r, behind);
      LoopChained(r.seqAck, r.rxQ, r.txQ, st, r.rxQ.rdSeq, maxSlots);
      CallRuns(r, maxSlots, behind);
      CallResult(r, maxAckPackets, maxSlots, behind);
      var s := AckLoop(st, r.rxQ.rdSeq, maxSlots);
      EndedIs(r, maxSlots, behind, s);
      ReachedIs(r.rxQ, r.txQ, s, Reach(r, maxSlots));
      ScanOk(r.rxQ, s.st, Reach(r, maxSlots));
      EndIs(s);
      if !s.stop && s.st.unsent > 0 {
        OkIs(s.st);
        FlushChained(r.seqAck, s.st, s.st.fieldIdx + 1, s.st.fieldIdx + 1, Min(Reach(r, maxSlots), r.rxQ.wrSeq));
      }
    }
  }

  lemma NoChain(start: int)
    ensures Chained(start, [], start)
  {
  }

  lemma StartIs(r: Receiver, behind: SackField)
    requires r.rxQ.Inv() && r.txQ.Inv()
    ensures AckStart(r, behind).log == [] && AckStart(r, behind).seqAck == r.seqAck
  {
  }

  lemma ReachedIs(rx: PacketQ, tx: PacketQ, s: AckStep, j: int)
    requires Reached(rx, tx, s, j)
    ensures Scanning(rx, s.st, j)
  {
    hide Scanning, TxGrew;
  }

  // ---- A call that leaves its buffer ----

  /** What a call sends that does not stay in its field buffer: a SACK of thirteen fields that
      the sender accepts, the last of which is whatever memory holds behind the buffer. */
  lemma OverreadNames(r: Receiver, maxAckPackets: int, maxSlots: nat, behind: SackField)
    requires RxWindow(r.rxQ) && AckEdge(r.rxQ, r.seqAck) && r.txQ.Inv() && r.rxQ.Inv()
    requires !StaysInBuffer(r, maxAckPackets, maxSlots, behind)
    ensures var (r', err, log) := GenerateAcks(r, maxAckPackets, maxSlots, behind);
            && err == NoError && log != [] && Accepts(Last(log)) && Last(log).base >= 0
            && |Last(log).fields| == MAX_SACKS + 1 && Last(Last(log).fields) == behind
            && forall t | t in Range(Last(log).base + behind.offset, behind.count) ::
                 t in Expand(Last(log).base, Last(log).fields)
  {
    hide *;
    LeavesIs(r, maxAckPackets, maxSlots, behind);
    CallRuns(r, maxSlots, behind);
    var s := AckLoop(AckStart(r, behind), r.rxQ.rdSeq, maxSlots);
    EndNeeds(r, maxSlots, behind, s);
    EndSends(r, maxSlots, behind, s);
    EndedIs(r, maxSlots, behind, s);
    ScanDone(r.rxQ, r.txQ, s, Reach(r, maxSlots));
    OverreadLast(s, Min(Reach(r, maxSlots), r.rxQ.wrSeq));
    CallResult(r, maxAckPackets, maxSlots, behind);
    OverreadSack(s.st.base, s.st.fields, behind);
    LastSnoc(s.st.log, Sack(s.st.base, s.st.fieldIdx + 1, s.st.fields[..s.st.fieldIdx + 1]));
  }

  lemma LeavesIs(r: Receiver, maxAckPackets: int, maxSlots: nat, behind: SackField)
    requires r.rxQ.Inv() && r.txQ.Inv() && !StaysInBuffer(r, maxAckPackets, maxSlots, behind)
    ensures var h := Horizon(r.rxQ, maxSlots);
            && maxAckPackets > 0 && r.rxQ.readable != 0
            && behind.count > 0 && FillsBuffer(r.rxQ, h) && Room(r.txQ) >= SacksNeeded(r.rxQ, h)
  {
    hide Horizon, FillsBuffer, Room, SacksNeeded;
  }

  lemma OverreadLast(s: AckStep, hi: int)
    requires Overreads(s) && FieldsOk(s.st, hi) && s.st.Ok()
    ensures s.st.unsent > 0 && s.st.fieldIdx == 12 && s.st.base >= 0
  {
  }

  lemma OverreadSack(base: int, fields: FieldBuff, behind: SackField)
    requires fields[MAX_SACKS] == behind
    ensures var sack := Sack(base, 12 + 1, fields[..12 + 1]);
            && Accepts(sack) && |sack.fields| == MAX_SACKS + 1 && Last(sack.fields) == behind
            && forall t | t in Range(base + behind.offset, behind.count) :: t in Expand(base, sack.fields)
  {
    assert fields[..13] == fields[..12] + [behind];
    ExpandSnoc(base, fields[..12], behind);
  }

  lemma LastSnoc<T>(s: seq<T>, x: T)
    ensures Last(s + [x]) == x
  {
  }

  /** Which calls are sound, whatever memory holds: exactly those that stay in their field
      buffer.  Otherwise some contents of the memory behind it make the call acknowledge a
      packet that has not arrived. */
  lemma SoundExact(r: Receiver, maxAckPackets: int, maxSlots: nat)
    requires RxWindow(r.rxQ) && AckEdge(r.rxQ, r.seqAck) && r.txQ.Inv() && r.rxQ.Inv()
    ensures (forall behind :: LogBelow(GenerateAcks(r, maxAckPackets, maxSlots, behind).2, r.rxQ.wrSeq))
            <==> (forall behind :: StaysInBuffer(r, maxAckPackets, maxSlots, behind))
  {
    hide StaysInBuffer, RxWindow, AckEdge, GenerateAcks, LogBelow, Window.Inv;
    if forall behind :: StaysInBuffer(r, maxAckPackets, maxSlots, behind) {
      forall behind ensures LogBelow(GenerateAcks(r, maxAckPackets, maxSlots, behind).2, r.rxQ.wrSeq) {
        GenerateAcksKeeps(r, maxAckPackets, maxSlots, behind);
      }
    } else {
      var behind :| !StaysInBuffer(r, maxAckPackets, maxSlots, behind);
      var bad := SackField(r.rxQ.wrSeq, 1);
      OtherMemory(r, maxAckPackets, maxSlots, behind, bad);
      OverreadNames(r, maxAckPackets, maxSlots, bad);
      NotBelow(GenerateAcks(r, maxAckPackets, maxSlots, bad).2, bad, r.rxQ.wrSeq);
    }
  }

  lemma OtherMemory(r: Receiver, maxAckPackets: int, maxSlots: nat, behind: SackField, other: SackField)
    requires r.rxQ.Inv() && r.txQ.Inv() && !StaysInBuffer(r, maxAckPackets, maxSlots, behind) && other.count > 0
    ensures !StaysInBuffer(r, maxAckPackets, maxSlots, other)
  {
    hide Horizon, FillsBuffer, Room, SacksNeeded;
  }

  lemma NotBelow(log: seq<Sack>, bad: SackField, hi: nat)
    requires log != [] && Last(log).base >= 0 && bad == SackField(hi, 1)
    requires forall t | t in Range(Last(log).base + bad.offset, bad.count) :: t in Expand(Last(log).base, Last(log).fields)
    ensures !LogBelow(log, hi)
  {
    RangeMembers(Last(log).base + hi, 1);
    assert Last(log) in log;
    hide Expand;
    assert Last(log).base + hi in Expand(Last(log).base, Last(log).fields);
  }

  // A closed run takes up at least two slots.
  lemma {:induction false} ClosedHalf(w: PacketQ, hi: int)
    requires w.rdSeq <= hi
    ensures 2 * ClosedRuns(w, hi) + (if hi > w.rdSeq && Wants(w, hi - 1) then 1 else 0) <= hi - w.rdSeq
    decreases hi
  {
    hide Wants;
    if hi > w.rdSeq { ClosedHalf(w, hi - 1); }
  }

  /** With fewer than 24 slots to look at, no call leaves its field buffer, whatever the memory
      behind it holds. */
  lemma ShortWindowStays(r: Receiver, maxAckPackets: int, maxSlots: nat, behind: SackField)
    requires r.rxQ.Inv() && r.txQ.Inv()
    requires r.rxQ.Count() < 24 || maxSlots < 24
    ensures StaysInBuffer(r, maxAckPackets, maxSlots, behind)
  {
    var h := Horizon(r.rxQ, maxSlots);
    ClosedHalf(r.rxQ, h);
    assert h <= r.rxQ.rdSeq + r.rxQ.Count();
    hide ClosedRuns, Wants, Room, SacksNeeded;
  }
}
