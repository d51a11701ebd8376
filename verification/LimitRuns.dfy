/** Runs from fresh queues that end in front of the two inputs of SackLimits: a receive window
    in which every second packet wants no acknowledgement, and a stale list of even numbers. */
module LimitRuns {
  import opened Basics
  import opened RingWindow
  import opened Packets
  import opened LinkedList
  import opened Sender
  import opened UserTx
  import opened Receiver
  import opened AckProofs
  import opened AckExact
  import opened AckRuns
  import opened Acks
  import opened AckAccepted
  import opened RecvProofs
  import opened Stale
  import opened Protocol
  import opened ProtocolProofs
  import opened Delivery
  import opened Stall
  import opened PlainRuns
  import opened SackLimits

  function FreshQueues(): System { Start(100, 32, 100, 32, 100, 4) }

  // ---- Packets on the wire ----

  // Packet t as it is sent.
  function Dat(sent: seq<Bytes>, t: nat, quiet: int -> bool): DatHdr
    requires t < |sent|
  {
    DatHdr(t, sent[t], 0, quiet(t), false, false)
  }

  // The first n packets are queued; quiet says which of them want no acknowledgement.
  ghost predicate Filled(s: System, n: nat, quiet: int -> bool) {
    && s.rcv == FreshQueues().rcv && |s.sent| == n == s.seqSnd
    && s.txQ.rdSeq == 0 && s.txQ.wrSeq == n && s.txQ.Count() == 32
    && (forall t | s.txQ.Has(t) :: 0 <= t < n)
    && forall t | 0 <= t < n :: s.txQ.Has(t) && s.txQ.At(t).buff.dat == Dat(s.sent, t, quiet)
  }

  lemma StartFilled(quiet: int -> bool)
    ensures var s := FreshQueues(); Safe(s) && Queues(s) && Filled(s, 0, quiet)
  {
    StartSafe(100, 32, 100, 32, 100, 4);
  }

  lemma StartReached()
    requires Queues(FreshQueues())
    ensures Reachable(FreshQueues())
  {
    hide Start, Queues, Step, Enabled;
    var s := FreshQueues();
    assert Initial(s);
    assert Run([s], []) && Last([s]) == s;
  }

  lemma OneDat(w: PacketQ, noAck: bool)
    requires Identity(w) && AllBuffs(w, Clean) && w.Inv() && w.wrSeq < w.rdSeq + w.Count()
    ensures var r := Send(w, w.wrSeq, [0], 1, noAck, 0, []);
            r.queued == [[0]] && r.w.wrSeq == w.wrSeq + 1 == r.seqSnd && Appends(w, r.w, [0], noAck)
  {
    hide Send, AllBuffs, Identity, Window.Inv, Appends;
    var data: Bytes := [0];
    SendFacts(w, data, 1, noAck, 0, []);
    assert Take(data, 1) == data;
    var r := Send(w, w.wrSeq, data, 1, noAck, 0, []);
    assert r.w.wrSeq == w.wrSeq + 1;
    assert [] + Copies(data, 1) == [data];
  }

  lemma FilledMore(s: System, v: System, n: nat, quiet: int -> bool)
    requires Filled(s, n, quiet) && Appends(s.txQ, v.txQ, [0], quiet(n)) && v.txQ.wrSeq == n + 1 == v.seqSnd
    requires v.rcv == s.rcv && v.sent == s.sent + [[0]]
    ensures Filled(v, n + 1, quiet)
  {
    hide AllBuffs, Identity, Start;
  }

  lemma FillOne(s: System, n: nat, quiet: int -> bool) returns (v: System)
    requires Reachable(s) && Queues(s) && Filled(s, n, quiet) && n < 32
    ensures Reachable(v) && Queues(v) && Filled(v, n + 1, quiet)
  {
    hide *;
    var e := UserSends([0], 1, quiet(n));
    ReachableSafe(s);
    SafeParts(s);
    FilledRoom(s, n, quiet);
    OneDat(s.txQ, quiet(n));
    EnabledFree(s, e);
    ReachableStep(s, e);
    UserSendsIs(s, e);
    v := Step(s, e);
    FilledMore(s, v, n, quiet);
  }

  lemma FilledRoom(s: System, n: nat, quiet: int -> bool)
    requires Filled(s, n, quiet) && n < 32
    ensures s.txQ.wrSeq < s.txQ.rdSeq + s.txQ.Count() && s.txQ.wrSeq == n
  {
  }

  lemma {:induction false} Fill(n: nat, quiet: int -> bool) returns (s: System)
    requires n <= 32
    ensures Reachable(s) && Queues(s) && Filled(s, n, quiet)
  {
    hide *;
    if n == 0 {
      s := FreshQueues();
      StartFilled(quiet);
      StartReached();
    } else {
      var s0 := Fill(n - 1, quiet);
      s := FillOne(s0, n - 1, quiet);
    }
  }

  // One slot of a queue whose packets are all to be sent, and whose first one is kept.
  ghost predicate ToSend(w: PacketQ, i: int) {
    && w.Inv() && w.Has(w.rdSeq) && w.At(w.rdSeq).buff.kind == KindDat && !w.At(w.rdSeq).buff.dat.noAck
    && forall t | i <= t && w.Has(t) :: w.At(t).buff.kind == KindDat && w.At(t).buff.txState == TxNow
  }

  lemma SendsHeldOne(w: PacketQ, i: int, hw: int -> bool)
    requires ToSend(w, i) && w.InRange(i) && hw(i)
    ensures var s := TxAt(w, i, hw); !s.stop && s.w.rdSeq == w.rdSeq && ToSend(s.w, i + 1)
  {
    hide Release, Window.Inv, Window.Put;
    if w.Has(i) {
      var u := w.Put(i, MarkSent(w.At(i).buff));
      PutSame(w, i, MarkSent(w.At(i).buff));
      PutAt(w, i, MarkSent(w.At(i).buff));
      if w.At(i).buff.dat.noAck { ReleaseLater(u, i); }
    }
  }

  lemma PutAt(w: PacketQ, i: int, x: Packet)
    requires w.InRange(i)
    ensures w.Put(i, x).InRange(i) && w.Put(i, x).At(i).buff == x
  {
  }

  lemma ReleaseLater(w: PacketQ, i: int)
    requires w.Inv() && w.Has(i) && i != w.rdSeq
    ensures var v := Release(w, i).0;
            && v.rdSeq == w.rdSeq && (forall t :: v.Has(t) <==> w.Has(t) && t != i)
            && (forall t | v.Has(t) :: v.At(t) == w.At(t))
  {
    ReleaseHas(w, i);
    ReleaseFacts(w, i);
  }

  lemma {:induction false} SendsHeld(w: PacketQ, i: int, maxSlots: nat, hw: int -> bool, out: seq<Sent>)
    requires ToSend(w, i) && w.rdSeq <= i && forall t :: hw(t)
    ensures w.Inv() && NetTx(w, i, maxSlots, hw, out).err == NoError
    decreases w.wrSeq + 1 - i
  {
    hide TxAt, ToSend, Window.Has, Window.Put, Window.Inv;
    MarkedInv(w, i);
    ReadLimits(w);
    if i < w.rdMax && i < w.rdSeq + maxSlots {
      SendsHeldOne(w, i, hw);
      SendsHeld(TxAt(w, i, hw).w, i + 1, maxSlots, hw, out + TxAt(w, i, hw).out);
    }
  }

  lemma MarkedInv(w: PacketQ, i: int)
    requires ToSend(w, i)
    ensures w.Inv()
  {
  }

  // The first n packets are on the wire.
  ghost predicate OnWire(s: System, n: nat, quiet: int -> bool) {
    |s.sent| == n && forall t | 0 <= t < n :: Dat(s.sent, t, quiet) in s.dats
  }

  // The queue with every packet marked.
  lemma AllMarked(s: System, w: PacketQ, n: nat, quiet: int -> bool, now: int -> TxState)
    requires Filled(s, n, quiet) && Identity(s.txQ) && 0 < n && !quiet(0) && w == Remark(s.txQ, now)
    requires forall t :: now(t) == TxNow
    ensures ToSend(w, 0) && w.rdSeq == 0 && n <= Min(w.wrSeq, w.rdSeq + 32)
    ensures forall t | 0 <= t < n ::
              && w.Has(t) && w.At(t).buff.kind == KindDat && w.At(t).buff.txState == TxNow
              && w.At(t).buff.dat == Dat(s.sent, t, quiet)
  {
    RemarkHas(s.txQ, now);
    IdentityKind(s.txQ);
    hide Start, Remark;
    assert s.txQ.Has(0);
    forall t | 0 <= t < n ensures w.Has(t) { assert s.txQ.Has(t); }
  }

  lemma MarkDatsIs(s: System, now: int -> TxState)
    requires Queues(s)
    ensures s.txQ.Inv() && s.rcv.rxQ.Inv() && s.rcv.txQ.Inv()
    ensures Step(s, MarkDats(now)) == s.(txQ := Remark(s.txQ, now))
  {
    hide Remark;
  }

  lemma OutHas(w: PacketQ, w': PacketQ, out: seq<Sent>, n: nat, d: DatHdr, t: nat)
    requires Complete(w, w', 0, Min(w.wrSeq, w.rdSeq + 32), out) && t < n <= Min(w.wrSeq, w.rdSeq + 32)
    requires w.Has(t) && w.At(t).buff.kind == KindDat && w.At(t).buff.txState == TxNow && w.At(t).buff.dat == d
    ensures d in DatsOf(out)
  {
    assert Sent(t, w.At(t).buff) in out;
  }

  lemma WiredOut(s: System, u: System, v: System, n: nat, quiet: int -> bool, now: int -> TxState, free: int -> bool)
    requires Queues(s) && Queues(u) && s.txQ.Inv() && s.rcv.rxQ.Inv() && s.rcv.txQ.Inv()
    requires u.txQ.Inv() && u.rcv.rxQ.Inv() && u.rcv.txQ.Inv()
    requires u == Step(s, MarkDats(now)) && v == Step(u, SendDats(32, free))
    requires (forall t :: now(t) == TxNow) && (forall t :: free(t))
    requires Identity(s.txQ) && Filled(s, n, quiet) && 0 < n <= 32 && !quiet(0)
    ensures v.rcv == s.rcv && OnWire(v, n, quiet)
  {
    hide *;
    var w := u.txQ;
    MarkDatsIs(s, now);
    AllMarked(s, w, n, quiet, now);
    SendsHeld(w, 0, 32, free, []);
    NetTxComplete(w, 0, 32, free, []);
    SendDatsIs(u, SendDats(32, free));
    var r := NetTx(w, 0, 32, free, []);
    assert r.out[0..] == r.out;
    FilledLength(s, n, quiet);
    forall t | 0 <= t < n ensures Dat(s.sent, t, quiet) in v.dats {
      OutHas(w, r.w, r.out, n, Dat(s.sent, t, quiet), t);
    }
    WireIs(v, n, quiet);
  }

  lemma FilledLength(s: System, n: nat, quiet: int -> bool)
    requires Filled(s, n, quiet)
    ensures |s.sent| == n && s.rcv == FreshQueues().rcv
  {
    hide Start;
  }

  lemma WireIs(s: System, n: nat, quiet: int -> bool)
    requires |s.sent| == n && forall t | 0 <= t < n :: Dat(s.sent, t, quiet) in s.dats
    ensures OnWire(s, n, quiet)
  {
  }

  lemma Wire(n: nat, quiet: int -> bool) returns (s: System)
    requires 0 < n <= 32 && !quiet(0)
    ensures Reachable(s) && Queues(s) && s.rcv == FreshQueues().rcv && OnWire(s, n, quiet)
  {
    hide *;
    var now := (t: int) => TxNow;
    var free := (t: int) => true;
    var s0 := Fill(n, quiet);
    ReachableSafe(s0);
    SafeParts(s0);
    EnabledFree(s0, MarkDats(now));
    ReachableStep(s0, MarkDats(now));
    var s1 := Step(s0, MarkDats(now));
    EnabledFree(s1, SendDats(32, free));
    ReachableStep(s1, SendDats(32, free));
    s := Step(s1, SendDats(32, free));
    WiredOut(s0, s1, s, n, quiet, now, free);
    FilledLength(s0, n, quiet);
  }

  // ---- Packets in the receive window ----

  // The first k packets have arrived, in order, and nothing else has happened to the window.
  ghost predicate Row(w: PacketQ, k: nat, quiet: int -> bool) {
    && w.Inv() && w.Count() == 32 && w.rdSeq == 0 && w.wrSeq == k == w.rdMax && w.readable == k
    && (forall t :: w.Has(t) <==> 0 <= t < k)
    && forall t | 0 <= t < k :: w.Has(t) && !w.At(t).buff.dat.ackSent && w.At(t).buff.dat.noAck == quiet(t)
  }

  ghost predicate Arrived(s: System, n: nat, k: nat, quiet: int -> bool) {
    && OnWire(s, n, quiet) && Row(s.rcv.rxQ, k, quiet)
    && s.rcv.txQ == FreshQueues().rcv.txQ && s.rcv.staleQ == [] && s.rcv.seqAck == 0
  }

  lemma StoredInOrder(r: Receiver, d: DatHdr)
    requires r.rxQ.Inv() && d.seqNum == r.rxQ.wrSeq && r.rxQ.InRange(d.seqNum)
    ensures var r' := OnRxDat(r, d).0;
            r' == r.(rxQ := r'.rxQ) && (r'.rxQ.wrSeq > r.rxQ.wrSeq ==> r'.rxQ.rdMax == r'.rxQ.wrSeq)
  {
    var v := r.rxQ.Put(d.seqNum, RxPacket(d));
    CommitFacts(v, d.seqNum, r.rxQ.At(d.seqNum).len);
    hide Commit, Window.Put;
  }

  lemma RowMore(r: Receiver, d: DatHdr, k: nat, quiet: int -> bool)
    requires RxWindow(r.rxQ) && AckEdge(r.rxQ, r.seqAck) && Fresh(d) && Row(r.rxQ, k, quiet) && k < 32
    requires d.seqNum == k && d.noAck == quiet(k)
    ensures var r' := OnRxDat(r, d).0; r' == r.(rxQ := r'.rxQ) && Row(r'.rxQ, k + 1, quiet)
  {
    hide OnRxDat, Window.Inv;
    RxDatFacts(r, d);
    ArrivalCounts(r, d);
    StoredInOrder(r, d);
    var w := OnRxDat(r, d).0.rxQ;
    assert w.Has(k);
    RowEdge(w, k);
  }

  lemma RowEdge(w: PacketQ, k: nat)
    requires RxWindow(w) && w.rdSeq == 0 && w.Has(k) && !w.Has(k + 1) && w.wrSeq >= k
    ensures w.wrSeq == k + 1
  {
    assert w.wrSeq > k + 1 ==> w.Has(k + 1);
  }

  lemma ArriveOne(s: System, n: nat, k: nat, quiet: int -> bool) returns (v: System)
    requires Reachable(s) && Queues(s) && Arrived(s, n, k, quiet) && k < n <= 32
    ensures Reachable(v) && Queues(v) && Arrived(v, n, k + 1, quiet)
  {
    hide *;
    ArrivedParts(s, n, k, quiet);
    var d := Dat(s.sent, k, quiet);
    var e := DatArrives(d);
    ReachableSafe(s);
    SafeParts(s);
    DatIs(s, n, k, quiet);
    EnabledMore(s, e);
    ReachableStep(s, e);
    DatArrivesIs(s, e);
    v := Step(s, e);
    RowMore(s.rcv, d, k, quiet);
    ArrivedWhole(s, v, n, k, quiet);
  }

  lemma ArrivedParts(s: System, n: nat, k: nat, quiet: int -> bool)
    requires Arrived(s, n, k, quiet)
    ensures |s.sent| == n && OnWire(s, n, quiet) && Row(s.rcv.rxQ, k, quiet) && s.rcv.txQ == FreshQueues().rcv.txQ
    ensures s.rcv.staleQ == [] && s.rcv.seqAck == 0
  {
    hide Row, Start;
  }

  lemma DatIs(s: System, n: nat, t: nat, quiet: int -> bool)
    requires OnWire(s, n, quiet) && t < n
    ensures |s.sent| == n && Dat(s.sent, t, quiet) in s.dats
    ensures var d := Dat(s.sent, t, quiet); Fresh(d) && d.seqNum == t && d.noAck == quiet(t)
  {
  }

  lemma ArrivedWhole(s: System, v: System, n: nat, k: nat, quiet: int -> bool)
    requires Arrived(s, n, k, quiet) && v.sent == s.sent && v.dats == s.dats
    requires v.rcv == s.rcv.(rxQ := v.rcv.rxQ) && Row(v.rcv.rxQ, k + 1, quiet)
    ensures Arrived(v, n, k + 1, quiet)
  {
    hide Row, Start;
  }

  lemma FreshRow(s: System, n: nat, quiet: int -> bool)
    requires s.rcv == FreshQueues().rcv && OnWire(s, n, quiet)
    ensures Arrived(s, n, 0, quiet)
  {
    hide OnWire;
  }

  lemma {:induction false} Arrive(n: nat, k: nat, quiet: int -> bool) returns (s: System)
    requires 0 < n <= 32 && k <= n && !quiet(0)
    ensures Reachable(s) && Queues(s) && Arrived(s, n, k, quiet)
    decreases k
  {
    hide *;
    if k == 0 {
      s := Wire(n, quiet);
      FreshRow(s, n, quiet);
    } else {
      var s0 := Arrive(n, k - 1, quiet);
      s := ArriveOne(s0, n, k - 1, quiet);
    }
  }

  lemma FreshRoom()
    ensures var w := FreshQueues().rcv.txQ; w.Inv() && Room(w) == 4
  {
    var w := FreshQueues().rcv.txQ;
    assert EmptyFrom(w, 4) == 0;
    assert EmptyFrom(w, 3) == 1;
    assert EmptyFrom(w, 2) == 2;
    assert EmptyFrom(w, 1) == 3;
  }

  /** A run that ends in front of a call that reads behind its field buffer: 24 packets are sent,
      of which every second one wants no acknowledgement, and arrive in order. */
  lemma OverreadReached() returns (s: System)
    ensures Reachable(s) && Queues(s) && Alternating(s.rcv.rxQ)
    ensures forall packets: int, slots: nat, behind: SackField | packets > 0 && slots >= 24 && behind.count > 0 ::
              && !StaysInBuffer(s.rcv, packets, slots, behind)
              && Flatten(Accepted(GenerateAcks(s.rcv, packets, slots, behind).2)) != Wanted(s.rcv.rxQ, Horizon(s.rcv.rxQ, slots))
  {
    hide *;
    var odd := (t: int) => t % 2 == 1;
    s := Arrive(24, 24, odd);
    ReachableSafe(s);
    SafeParts(s);
    ArrivedParts(s, 24, 24, odd);
    RowAlternates(s.rcv, odd);
    FreshRoom();
    forall packets: int, slots: nat, behind: SackField | packets > 0 && slots >= 24 && behind.count > 0
      ensures !StaysInBuffer(s.rcv, packets, slots, behind)
      ensures Flatten(Accepted(GenerateAcks(s.rcv, packets, slots, behind).2)) != Wanted(s.rcv.rxQ, Horizon(s.rcv.rxQ, slots))
    {
      OverreadCall(s.rcv, packets, slots, behind);
      OverreadLoses(s.rcv, packets, slots, behind);
    }
  }

  lemma RowAlternates(r: Receiver, odd: int -> bool)
    requires Row(r.rxQ, 24, odd) && r.seqAck == 0 && forall t :: odd(t) == (t % 2 == 1)
    ensures Alternating(r.rxQ) && Small(r.rxQ) && r.rxQ.readable != 0
  {
    hide Window.Inv;
  }

  // ---- Packets that arrive again ----

  // Every SACK that a call queues takes one place.
  lemma CallRoom(r: Receiver, slots: nat, behind: SackField)
    requires RxWindow(r.rxQ) && AckEdge(r.rxQ, r.seqAck) && r.txQ.Inv() && r.rxQ.Inv() && r.rxQ.readable != 0
    requires ClosedRuns(r.rxQ, Horizon(r.rxQ, slots) - 1) < 12 && Room(r.txQ) >= SacksNeeded(r.rxQ, Horizon(r.rxQ, slots))
    ensures var r' := GenerateAcks(r, 1, slots, behind).0; r'.txQ.Inv() && Room(r'.txQ) >= Room(r.txQ) - 1
  {
    hide *;
    CallRuns(r, slots, behind);
    CallResult(r, 1, slots, behind);
    var s := AckLoop(AckStart(r, behind), r.rxQ.rdSeq, slots);
    EndNeeds(r, slots, behind, s);
    EndedIs(r, slots, behind, s);
    RunsRoom(r.rxQ, r.txQ, s.st, Reach(r, slots));
    EndRoom(s);
    Quotient(ClosedRuns(r.rxQ, Horizon(r.rxQ, slots) - 1));
  }

  lemma Quotient(n: nat)
    ensures n < 12 ==> n / 12 == 0
  {
  }

  lemma RunsRoom(rx: PacketQ, tx: PacketQ, st: AckScan, j: int)
    requires Runs(rx, tx, st, j)
    ensures tx.Inv() && st.txQ.Inv() && Room(st.txQ) + |st.log| == Room(tx)
  {
    hide Room, ClosedRuns, Wants;
  }

  lemma EndRoom(s: AckStep)
    requires s.st.Ok()
    ensures s.st.txQ.Inv() && AckEnd(s).st.txQ.Inv() && Room(AckEnd(s).st.txQ) >= Room(s.st.txQ) - 1
  {
    var n := s.st.fieldIdx + 1;
    if !s.stop && s.st.unsent > 0 { PushRoom(s.st.txQ, Sack(s.st.base, n, s.st.fields[..n])); }
    hide PushSack, Room;
  }

  // The first k of 27 packets have been handed out, and the others wait, acknowledged.
  ghost predicate Taken(s: System, k: nat, quiet: int -> bool) {
    && OnWire(s, 27, quiet) && s.rcv.txQ.Inv() && Room(s.rcv.txQ) >= 2 && s.rcv.staleQ == []
    && Acked(s.rcv.rxQ, k)
  }

  ghost predicate Acked(w: PacketQ, k: nat) {
    && w.rdSeq == k <= w.wrSeq == 27
    && forall t | k <= t < 27 :: w.Has(t) && w.At(t).buff.dat.ackSent
  }

  lemma RowAcked(w: PacketQ, v: PacketQ, h: int, quiet: int -> bool)
    requires Row(w, 27, quiet) && h >= 27 && v.rdSeq == w.rdSeq && v.wrSeq == w.wrSeq
    requires forall t | w.Has(t) :: v.Has(t) && (v.At(t).buff.dat.ackSent <==> w.At(t).buff.dat.ackSent || t < h)
    ensures Acked(v, 0)
  {
    hide Window.Inv, Window.Has;
  }

  lemma RowIs(r: Receiver, quiet: int -> bool)
    requires Row(r.rxQ, 27, quiet) && r.seqAck == 0 && forall t :: !quiet(t)
    ensures r.rxQ.readable != 0 && Small(r.rxQ) && Horizon(r.rxQ, 32) == 27 == r.rxQ.wrSeq
    ensures forall t | r.rxQ.Has(t) :: !r.rxQ.At(t).buff.dat.noAck
  {
    hide Window.Inv;
  }

  lemma AcknowledgeAll(s: System, quiet: int -> bool) returns (v: System)
    requires Reachable(s) && Queues(s) && Arrived(s, 27, 27, quiet) && forall t :: !quiet(t)
    ensures Reachable(v) && Queues(v) && Taken(v, 0, quiet)
  {
    hide *;
    ArrivedParts(s, 27, 27, quiet);
    ReachableSafe(s);
    SafeParts(s);
    var e, r := MakeAcks(1, 32, NO_FIELD), s.rcv;
    FreshRoom();
    NoCount();
    RowIs(r, quiet);
    RowNeedsOne(r.rxQ, 27);
    NoMemory(r, 1, 32, NO_FIELD);
    EnabledMore(s, e);
    ReachableStep(s, e);
    MakeAcksIs(s, e);
    v := Step(s, e);
    CallExact(r, 1, 32, NO_FIELD);
    CallRoom(r, 32, NO_FIELD);
    GenerateAcksKeeps(r, 1, 32, NO_FIELD);
    MarksAre(r.rxQ, v.rcv.rxQ, 27);
    HasSame(r.rxQ, v.rcv.rxQ, 27);
    RowAcked(r.rxQ, v.rcv.rxQ, 27, quiet);
    TakenWhole(s, v, 0, quiet);
  }

  lemma RowNeedsOne(w: PacketQ, h: int)
    requires RxWindow(w) && h <= w.wrSeq && forall t | w.Has(t) :: !w.At(t).buff.dat.noAck
    ensures ClosedRuns(w, h - 1) <= 1 && SacksNeeded(w, h) <= 1
  {
    hide ClosedRuns, RxWindow;
    OneNeeded(w, h);
  }

  lemma TakenWhole(s: System, v: System, k: nat, quiet: int -> bool)
    requires OnWire(s, 27, quiet) && v.sent == s.sent && v.dats == s.dats
    requires v.rcv.txQ.Inv() && Room(v.rcv.txQ) >= 2 && v.rcv.staleQ == [] && Acked(v.rcv.rxQ, k)
    ensures Taken(v, k, quiet)
  {
    hide Room;
  }

  lemma TakenParts(s: System, k: nat, quiet: int -> bool)
    requires Taken(s, k, quiet)
    ensures OnWire(s, 27, quiet) && s.rcv.txQ.Inv() && Room(s.rcv.txQ) >= 2 && s.rcv.staleQ == [] && Acked(s.rcv.rxQ, k)
  {
    hide Room;
  }

  lemma AckedLess(w: PacketQ, v: PacketQ, k: nat)
    requires Acked(w, k) && v.rdSeq == k + 1 <= 27 && v.wrSeq == w.wrSeq
    requires (forall t :: v.Has(t) <==> w.Has(t) && t != k) && forall t | v.Has(t) :: w.Has(t) && v.At(t) == w.At(t)
    ensures Acked(v, k + 1)
  {
    hide Window.Has;
  }

  lemma AckedFirst(w: PacketQ, k: nat)
    requires Acked(w, k) && k < 27
    ensures w.rdSeq == k < w.wrSeq && w.InRange(k) && w.At(k).buff.dat.ackSent
  {
    assert w.Has(k);
  }

  lemma TakeOne(s: System, k: nat, quiet: int -> bool) returns (v: System)
    requires Reachable(s) && Queues(s) && Taken(s, k, quiet) && k < 27
    ensures Reachable(v) && Queues(v) && Taken(v, k + 1, quiet)
  {
    hide *;
    var e := UserReads(1);
    ReachableSafe(s);
    SafeParts(s);
    TakenParts(s, k, quiet);
    AckedFirst(s.rcv.rxQ, k);
    UserRxFacts(s.rcv.rxQ, 1);
    EnabledFree(s, e);
    ReachableStep(s, e);
    UserReadsIs(s, e);
    v := Step(s, e);
    AckedLess(s.rcv.rxQ, v.rcv.rxQ, k);
    TakenWhole(s, v, k + 1, quiet);
  }

  lemma {:induction false} TakeAll(k: nat, quiet: int -> bool) returns (s: System)
    requires k <= 27 && forall t :: !quiet(t)
    ensures Reachable(s) && Queues(s) && Taken(s, k, quiet)
  {
    hide *;
    if k == 0 {
      var s0 := Arrive(27, 27, quiet);
      s := AcknowledgeAll(s0, quiet);
    } else {
      var s0 := TakeAll(k - 1, quiet);
      s := TakeOne(s0, k - 1, quiet);
    }
  }

  // All 27 packets have been handed out, and the first n even ones have arrived again.
  ghost predicate Again(s: System, n: nat, quiet: int -> bool) {
    && OnWire(s, 27, quiet) && s.rcv.txQ.Inv() && Room(s.rcv.txQ) >= 2 && s.rcv.rxQ.rdSeq == 27
    && Evens(s.rcv.staleQ, n)
  }

  lemma InsertLast(l: StaleQ, e: Entry<Packet>)
    requires forall j | 0 <= j < |l| :: l[j].seqNum < e.seqNum
    ensures InsertOrd(l, e) == l + [e]
  {
  }

  lemma EvensMore(l: StaleQ, e: Entry<Packet>, n: nat)
    requires Evens(l, n) && e.seqNum == 2 * n
    ensures Evens(InsertOrd(l, e), n + 1)
  {
    hide InsertOrd;
    InsertLast(l, e);
  }

  lemma ArrivesAgain(r: Receiver, d: DatHdr)
    requires r.rxQ.Inv() && d.seqNum < r.rxQ.rdSeq && !d.noAck
    ensures OnRxDat(r, d).0 == r.(staleQ := InsertOrd(r.staleQ, Entry(d.seqNum, 1, RxPacket(d.(staleDat := true)))))
  {
    hide InsertOrd, Commit;
  }

  lemma AgainParts(s: System, n: nat, quiet: int -> bool)
    requires Again(s, n, quiet)
    ensures OnWire(s, 27, quiet) && s.rcv.txQ.Inv() && Room(s.rcv.txQ) >= 2 && s.rcv.rxQ.rdSeq == 27 && Evens(s.rcv.staleQ, n)
  {
    hide Room;
  }

  lemma AgainWhole(s: System, n: nat, quiet: int -> bool)
    requires OnWire(s, 27, quiet) && s.rcv.txQ.Inv() && Room(s.rcv.txQ) >= 2 && s.rcv.rxQ.rdSeq == 27 && Evens(s.rcv.staleQ, n)
    ensures Again(s, n, quiet)
  {
    hide Room;
  }

  lemma AgainOne(s: System, n: nat, quiet: int -> bool) returns (v: System)
    requires Reachable(s) && Queues(s) && Again(s, n, quiet) && n < 14 && forall t :: !quiet(t)
    ensures Reachable(v) && Queues(v) && Again(v, n + 1, quiet)
  {
    hide *;
    ReachableSafe(s);
    SafeParts(s);
    AgainParts(s, n, quiet);
    DatIs(s, 27, 2 * n, quiet);
    var d := Dat(s.sent, 2 * n, quiet);
    var e := DatArrives(d);
    EnabledMore(s, e);
    ReachableStep(s, e);
    DatArrivesIs(s, e);
    v := Step(s, e);
    ArrivesAgain(s.rcv, d);
    EvensMore(s.rcv.staleQ, Entry(d.seqNum, 1, RxPacket(d.(staleDat := true))), n);
    SameWire(s, v, 27, quiet);
    AgainWhole(v, n + 1, quiet);
  }

  lemma SameWire(s: System, v: System, n: nat, quiet: int -> bool)
    requires OnWire(s, n, quiet) && v.sent == s.sent && v.dats == s.dats
    ensures OnWire(v, n, quiet)
  {
  }

  lemma {:induction false} ListEvens(n: nat, quiet: int -> bool) returns (s: System)
    requires n <= 14 && forall t :: !quiet(t)
    ensures Reachable(s) && Queues(s) && Again(s, n, quiet)
  {
    hide *;
    if n == 0 {
      s := TakeAll(27, quiet);
      TakenParts(s, 27, quiet);
      NoneAgain(s.rcv);
      AgainWhole(s, 0, quiet);
    } else {
      var s0 := ListEvens(n - 1, quiet);
      s := AgainOne(s0, n - 1, quiet);
    }
  }

  lemma NoneAgain(r: Receiver)
    requires r.staleQ == [] && Acked(r.rxQ, 27)
    ensures Evens(r.staleQ, 0) && r.rxQ.rdSeq == 27
  {
  }

  /** A run that ends in front of a call that writes behind its field buffer: 27 packets are sent,
      arrive, are acknowledged and handed out, and then every second one arrives again. */
  lemma OverrunReached() returns (s: System)
    ensures Reachable(s) && Queues(s) && s.rcv.txQ.Inv() && Evens(s.rcv.staleQ, 13)
    ensures forall packets: int, behind: SackField | packets > 0 :: BehindAfter(s.rcv, packets, 25, behind).count == 1
  {
    hide *;
    var none := (t: int) => false;
    s := ListEvens(13, none);
    AgainParts(s, 13, none);
    forall packets: int, behind: SackField | packets > 0 ensures BehindAfter(s.rcv, packets, 25, behind).count == 1 {
      OverrunCall(s.rcv, packets, behind);
    }
  }

  /** One more arrival, and a longer call, if its write is harmless, acknowledges the packet 27,
      which was not sent. */
  lemma OverstepReached() returns (s: System)
    ensures Reachable(s) && Queues(s) && s.rcv.txQ.Inv() && Evens(s.rcv.staleQ, 14) && |s.sent| == 27
    ensures forall packets: int, slots: nat, behind: SackField | packets > 0 && slots >= 28 ::
              Flatten(Accepted(GenerateStaleAcks(s.rcv, packets, slots, behind).2)) == [26, 27]
  {
    hide *;
    var none := (t: int) => false;
    s := ListEvens(14, none);
    AgainParts(s, 14, none);
    DatIs(s, 27, 0, none);
    forall packets: int, slots: nat, behind: SackField | packets > 0 && slots >= 28
      ensures Flatten(Accepted(GenerateStaleAcks(s.rcv, packets, slots, behind).2)) == [26, 27]
    {
      LongStaleCall(s.rcv, packets, slots, behind);
    }
  }
}
