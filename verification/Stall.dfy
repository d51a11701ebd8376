/** What the drift of the readable counter comes to.  A read makes the counter go down by one,
    but a write edge that moves over several slots makes it go up by one only; when it reaches
    zero with packets still waiting, they are neither acknowledged nor handed out. */
module Stall {
  import opened Basics
  import opened RingWindow
  import opened Packets
  import opened Sender
  import opened UserTx
  import opened Receiver
  import opened AckProofs
  import opened AckExact
  import opened AckRuns
  import opened Acks
  import opened AckAccepted
  import opened RecvProofs
  import opened Stale
  import opened Protocol
  import opened ProtocolProofs
  import opened Delivery

  // Everything sent has arrived, and the next packet waits for an acknowledgement that the
  // counter keeps it from getting.
  ghost predicate Stalled(s: System) {
    var w := s.rcv.rxQ;
    w.readable == 0 && w.Has(w.rdSeq) && w.wrSeq == |s.sent| && !w.At(w.rdSeq).buff.dat.ackSent
  }

  // Steps that have nothing to do with the receive window.
  lemma StepElsewhere(s: System, e: Event)
    requires Queues(s) && (e.MarkDats? || e.SendDats? || e.MarkAcks? || e.SendAcks? || e.AckArrives? || e.MakeStaleAcks?)
    ensures var v := Step(s, e); v.rcv.rxQ == s.rcv.rxQ && v.sent == s.sent && v.delivered == s.delivered
  {
    hide NetTx, OnRxAck, Remark, StaleFlush, StaleLoop, Gone;
  }

  lemma StalledArrival(s: System, d: DatHdr)
    requires Queues(s) && Stalled(s) && WindowOk(s.rcv.rxQ, s.sent) && AckEdge(s.rcv.rxQ, s.rcv.seqAck) && DatOk(d, s.sent)
    ensures Step(s, DatArrives(d)).rcv.rxQ == s.rcv.rxQ
  {
    RxDatFacts(s.rcv, d);
    assert d.seqNum >= s.rcv.rxQ.rdSeq ==> s.rcv.rxQ.Has(d.seqNum);
    hide OnRxDat;
  }

  lemma StalledRead(s: System, len: nat)
    requires Queues(s) && Stalled(s)
    ensures var v := Step(s, UserReads(len)); v.rcv.rxQ == s.rcv.rxQ && v.delivered == s.delivered
  {
  }

  /** A stalled receiver stays stalled, and its user gets nothing more, whatever the network,
      transmission control and the receiver's user do, until the sender's user sends again. */
  lemma StalledStep(s: System, e: Event)
    requires Safe(s) && Queues(s) && Enabled(s, e) && Stalled(s) && !e.UserSends?
    ensures var v := Step(s, e); Stalled(v) && v.rcv.rxQ == s.rcv.rxQ && v.sent == s.sent && v.delivered == s.delivered
  {
    hide *;
    SafeParts(s);
    EnabledIs(s, e);
    StepHistory(s, e);
    StalledParts(s);
    match e {
      case DatArrives(d) =>
        DatsHas(s.dats, s.sent, d);
        StalledArrival(s, d);
      case MakeAcks(packets, slots, behind) =>
        Unchanged(s.rcv, packets, slots, behind);
        MakeAcksIs(s, e);
      case UserReads(len) => StalledRead(s, len);
      case _ => StepElsewhere(s, e);
    }
    StalledSame(s, Step(s, e));
  }

  lemma StepHistory(s: System, e: Event)
    requires Queues(s) && !e.UserSends?
    ensures Step(s, e).sent == s.sent && (!e.UserReads? ==> Step(s, e).delivered == s.delivered)
  {
    hide NetTx, OnRxAck, OnRxDat, Remark, GenerateAcks, GenerateStaleAcks, UserRx, Gone;
  }

  lemma StalledParts(s: System)
    requires Stalled(s)
    ensures s.rcv.rxQ.readable == 0
  {
  }

  lemma StalledSame(s: System, v: System)
    requires Stalled(s) && v.rcv.rxQ == s.rcv.rxQ && v.sent == s.sent
    ensures Stalled(v)
  {
  }

  lemma {:induction false} StalledForever(states: seq<System>, events: seq<Event>, i: nat)
    requires Run(states, events) && i < |states| && Safe(states[0]) && Stalled(states[0])
    requires forall e | e in events :: !e.UserSends?
    ensures Stalled(states[i]) && states[i].delivered == states[0].delivered
  {
    hide *;
    if i > 0 {
      StalledForever(states, events, i - 1);
      RunSafe(states, events, i - 1);
      RunStep(states, events, i - 1);
      assert events[i - 1] in events;
      StalledStep(states[i - 1], events[i - 1]);
    }
  }

  // ---- A run that stalls ----

  lemma ReachableStep(s: System, e: Event)
    requires Reachable(s) && Queues(s) && Enabled(s, e)
    ensures Reachable(Step(s, e)) && Queues(Step(s, e))
    ensures var v := Step(s, e); v.txQ.Inv() && v.rcv.rxQ.Inv() && v.rcv.txQ.Inv()
  {
    hide Step, Enabled, Initial, Window.Inv;
    var states, events :| Run(states, events) && Initial(states[0]) && Last(states) == s;
    var states', events' := states + [Step(s, e)], events + [e];
    forall i | 0 <= i < |events'|
      ensures Queues(states'[i]) && Enabled(states'[i], events'[i]) && states'[i + 1] == Step(states'[i], events'[i])
    {
      if i == |events| { assert states'[i] == s; }
    }
    assert Run(states', events') && states'[0] == states[0] && Last(states') == Step(s, e);
    ReachableSafe(Step(s, e));
  }

  // A receive window of four slots: which of them are full, and which of those are acknowledged.
  ghost predicate Holds(w: PacketQ, rd: nat, wr: nat, readable: int, has: set<int>, acked: set<int>) {
    && w.Inv() && w.Count() == 4 && w.rdSeq == rd && w.wrSeq == wr && w.readable == readable
    && (forall t :: w.Has(t) <==> t in has)
    && (forall t | t in has :: w.Has(t) && !w.At(t).buff.dat.noAck && (w.At(t).buff.dat.ackSent <==> t in acked))
  }

  lemma CommitCounts(w: PacketQ, s: int, len: int)
    requires w.Inv()
    ensures var r := Commit(w, s, len).0; r.readable == w.readable + if r.wrSeq > w.wrSeq then 1 else 0
  {
    CommitFacts(w, s, len);
  }

  lemma ArrivalCounts(r: Receiver, d: DatHdr)
    requires r.rxQ.Inv() && r.rxQ.InRange(d.seqNum) && !r.rxQ.Has(d.seqNum)
    ensures var w, v := r.rxQ, OnRxDat(r, d).0.rxQ;
            v.Inv() && v.Count() == w.Count() && v.readable == w.readable + if v.wrSeq > w.wrSeq then 1 else 0
  {
    var w := r.rxQ.Put(d.seqNum, RxPacket(d));
    CommitCounts(w, d.seqNum, r.rxQ.At(d.seqNum).len);
    hide Commit;
  }

  lemma Arrives(r: Receiver, d: DatHdr, rd: nat, wr: nat, readable: int, has: set<int>, acked: set<int>, wr': nat)
    requires RxWindow(r.rxQ) && AckEdge(r.rxQ, r.seqAck) && Fresh(d) && !d.noAck
    requires Holds(r.rxQ, rd, wr, readable, has, acked)
    requires rd <= d.seqNum < rd + 4 && d.seqNum !in has && d.seqNum !in acked
    requires wr <= wr' < rd + 4 && wr' !in has + {d.seqNum} && forall t | wr <= t < wr' :: t in has + {d.seqNum}
    ensures var v := OnRxDat(r, d).0;
            && v.txQ == r.txQ && v.seqAck == r.seqAck
            && Holds(v.rxQ, rd, wr', readable + (if wr' > wr then 1 else 0), has + {d.seqNum}, acked)
  {
    hide Commit, OnRxDat, Window.Inv;
    RxDatFacts(r, d);
    ArrivalCounts(r, d);
    var v := OnRxDat(r, d).0.rxQ;
    EdgeIs(r.rxQ, v, wr', has + {d.seqNum});
  }

  // The write edge is the first slot that is not full.
  lemma EdgeIs(w: PacketQ, v: PacketQ, wr: nat, has: set<int>)
    requires w.Inv() && RxWindow(v) && v.rdSeq == w.rdSeq && v.Count() == w.Count() && v.wrSeq >= w.wrSeq
    requires forall t :: v.Has(t) <==> t in has
    requires w.wrSeq <= wr < w.rdSeq + w.Count() && wr !in has && forall t | w.wrSeq <= t < wr :: t in has
    ensures v.wrSeq == wr
  {
    assert v.wrSeq < wr ==> v.wrSeq in has;
    assert v.wrSeq > wr ==> v.Has(wr);
  }

  // A call with room for its SACKs marks everything there is below the write edge.
  lemma Acknowledges(r: Receiver, rd: nat, wr: nat, readable: int, has: set<int>, acked: set<int>)
    requires RxWindow(r.rxQ) && AckEdge(r.rxQ, r.seqAck)
    requires r.txQ.Inv() && Room(r.txQ) > 0
    requires Holds(r.rxQ, rd, wr, readable, has, acked) && readable != 0 && forall t | t in has :: t < wr
    ensures r.rxQ.Inv()
    ensures var v := GenerateAcks(r, 1, 4, NO_FIELD).0; Holds(v.rxQ, rd, wr, readable, has, has)
  {
    hide *;
    var h := Horizon(r.rxQ, 4);
    WindowOf(r.rxQ, rd, wr, readable, has, acked);
    OneSack(r.rxQ, h);
    NoCount();
    NoMemory(r, 1, 4, NO_FIELD);
    CallExact(r, 1, 4, NO_FIELD);
    var v := GenerateAcks(r, 1, 4, NO_FIELD).0.rxQ;
    MarksAre(r.rxQ, v, h);
    HasSame(r.rxQ, v, h);
    HoldsMarked(r.rxQ, v, rd, wr, readable, has, acked, h);
  }

  lemma WindowOf(w: PacketQ, rd: nat, wr: nat, readable: int, has: set<int>, acked: set<int>)
    requires Holds(w, rd, wr, readable, has, acked)
    ensures w.Inv() && w.readable == readable && Small(w)
    ensures w.rdSeq <= Horizon(w, 4) <= w.rdSeq + 4 && wr <= Horizon(w, 4)
  {
  }

  lemma OneSack(w: PacketQ, h: int)
    requires w.rdSeq <= h <= w.rdSeq + 4
    ensures SacksNeeded(w, h) <= 1
  {
    ClosedHalf(w, h);
    ClosedMono(w, h - 1, h);
    hide ClosedRuns, Wants;
  }

  lemma NoMemory(r: Receiver, packets: int, slots: nat, behind: SackField)
    requires r.rxQ.Inv() && r.txQ.Inv() && behind.count == 0
    ensures StaysInBuffer(r, packets, slots, behind)
  {
    hide Horizon, FillsBuffer, Room, SacksNeeded;
  }

  lemma HoldsMarked(w: PacketQ, v: PacketQ, rd: nat, wr: nat, readable: int, has: set<int>, acked: set<int>, h: int)
    requires Holds(w, rd, wr, readable, has, acked) && wr <= h && forall t | t in has :: t < wr
    requires v.Inv() && v.Count() == w.Count() && v.rdSeq == w.rdSeq && v.wrSeq == w.wrSeq && v.readable == w.readable
    requires forall t :: v.Has(t) <==> w.Has(t)
    requires forall t | w.Has(t) :: v.Has(t) && v.At(t).buff.dat.noAck == w.At(t).buff.dat.noAck
    requires forall t | w.Has(t) :: v.Has(t) && (v.At(t).buff.dat.ackSent <==> w.At(t).buff.dat.ackSent || t < h)
    ensures Holds(v, rd, wr, readable, has, has)
  {
    hide Window.Inv, Window.Has;
  }

  lemma HasSame(rx: PacketQ, w: PacketQ, j: int)
    requires Marked(rx, w, j) && rx.Inv()
    ensures forall t :: w.Has(t) <==> rx.Has(t)
    ensures forall t | rx.Has(t) :: w.Has(t) && w.At(t).buff.dat.noAck == rx.At(t).buff.dat.noAck
    ensures w.Inv() && w.Count() == rx.Count() && w.rdSeq == rx.rdSeq && w.wrSeq == rx.wrSeq && w.readable == rx.readable
  {
    forall t ensures w.Has(t) <==> rx.Has(t) {
      if rx.InRange(t) { assert w.At(t).valid == rx.At(t).valid; }
    }
  }

  lemma ReleaseCounts(w: PacketQ)
    requires w.Inv() && w.rdSeq < w.wrSeq
    ensures Release(w, w.rdSeq).0.readable == w.readable - 1
  {
    ReleaseFacts(w, w.rdSeq);
    ReleaseHas(w, w.rdSeq);
  }

  lemma Reads(w: PacketQ, rd: nat, wr: nat, readable: int, has: set<int>, acked: set<int>)
    requires RxWindow(w) && Holds(w, rd, wr, readable, has, acked) && rd < wr && rd in acked && rd in has
    ensures Holds(UserRx(w, 1).0, rd + 1, wr, readable - 1, has - {rd}, acked)
  {
    UserRxFacts(w, 1);
    ReleaseCounts(w);
    assert UserRx(w, 1).0 == Release(w, rd).0;
    hide UserRx, Release;
  }

  lemma PutSame(w: PacketQ, i: int, x: Packet)
    requires w.Inv() && w.InRange(i)
    ensures var v := w.Put(i, x);
            && v.Inv() && v.rdSeq == w.rdSeq && v.wrSeq == w.wrSeq && v.rdMax == w.rdMax && v.Count() == w.Count()
            && (forall t :: v.Has(t) <==> w.Has(t))
            && (forall t | w.Has(t) && t != i :: v.At(t) == w.At(t))
  {
    var v := w.Put(i, x);
    forall t ensures v.Has(t) <==> w.Has(t) {
    }
  }

  lemma ReadLimits(w: PacketQ)
    requires w.Inv()
    ensures w.rdMax <= w.wrSeq + 1 && w.rdMax <= w.rdSeq + w.Count()
  {
  }

  lemma SendsOne(w: PacketQ, i: int, hw: int -> bool)
    requires w.Inv() && w.InRange(i) && hw(i)
    requires w.Has(i) ==> var p := w.At(i).buff; p.kind == KindDat && p.txState == TxNow && !p.dat.noAck
    ensures var s, v := TxAt(w, i, hw), TxAt(w, i, hw).w;
            && !s.stop && v.Inv() && v.rdSeq == w.rdSeq && v.wrSeq == w.wrSeq
            && (forall t :: v.Has(t) <==> w.Has(t))
            && (forall t | w.Has(t) && t != i :: v.Has(t) && v.At(t) == w.At(t))
  {
    hide Release, Window.Inv, Window.Put;
    if w.Has(i) { PutSame(w, i, MarkSent(w.At(i).buff)); }
  }

  // With nothing to wait for, a call sends all that is queued.
  lemma {:induction false} SendsAll(w: PacketQ, i: int, maxSlots: nat, hw: int -> bool, out: seq<Sent>)
    requires w.Inv() && w.rdSeq <= i && (forall t :: hw(t)) && (forall t | w.rdSeq <= t < w.wrSeq :: w.Has(t))
    requires forall t | i <= t && w.Has(t) ::
               var p := w.At(t).buff; p.kind == KindDat && p.txState == TxNow && !p.dat.noAck
    ensures NetTx(w, i, maxSlots, hw, out).err == NoError
    decreases w.wrSeq + 1 - i
  {
    hide TxAt, Window.Inv, Window.Has, Window.Put;
    ReadLimits(w);
    if i < w.rdMax && i < w.rdSeq + maxSlots {
      var s := TxAt(w, i, hw);
      SendsOne(w, i, hw);
      SendsAll(s.w, i + 1, maxSlots, hw, out + s.out);
    }
  }

  // Three bytes from the user, one for each packet.
  lemma ThreeDats(w: PacketQ)
    requires Identity(w) && AllBuffs(w, Clean) && w.Inv() && w.rdSeq == w.wrSeq == 0 && w.Count() == 4
    ensures var r := Send(w, 0, [0, 0, 0], 1, false, 0, []);
            && r.queued == Copies([0], 3) && r.w.rdSeq == 0 && r.w.wrSeq == 3
            && forall t | 0 <= t < 3 :: r.w.Has(t) && r.w.At(t).buff.dat == DatHdr(t, [0], 0, false, false, false)
  {
    hide Send, AllBuffs, Identity, Window.Inv;
    var data: Bytes := [0, 0, 0];
    SendFacts(w, data, 1, false, 0, []);
    assert Take(data, 1) == [0];
    var r := Send(w, 0, data, 1, false, 0, []);
    assert [] + Copies([0], r.w.wrSeq) == Copies([0], r.w.wrSeq);
  }

  lemma StepSends(s: System, data: Bytes)
    requires Queues(s)
    ensures s.txQ.Inv() && s.rcv.rxQ.Inv() && s.rcv.txQ.Inv()
    ensures var r := Send(s.txQ, s.seqSnd, data, 1, false, 0, []);
            Step(s, UserSends(data, 1, false)) == s.(txQ := r.w, seqSnd := r.seqSnd, sent := s.sent + r.queued)
  {
    hide Send;
  }

  lemma StartIs(s: System)
    requires s == Start(100, 4, 100, 4, 100, 4)
    ensures s.txQ.rdSeq == s.txQ.wrSeq == s.seqSnd == 0 && s.txQ.Count() == 4 && s.sent == []
  {
  }

  ghost predicate Queued(s: System) {
    && |s.sent| == 3 && s.txQ.rdSeq == 0 && s.txQ.wrSeq == 3
    && forall t | 0 <= t < 3 :: s.txQ.Has(t) && s.txQ.At(t).buff.dat == DatHdr(t, s.sent[t], 0, false, false, false)
  }

  lemma ThreeQueued(s: System)
    requires s == Start(100, 4, 100, 4, 100, 4)
    ensures Safe(s) && Queues(s) && s.txQ.Inv() && s.rcv.rxQ.Inv() && s.rcv.txQ.Inv()
    ensures var v := Step(s, UserSends([0, 0, 0], 1, false)); v.rcv == s.rcv && Queued(v)
  {
    hide Start, Safe, Step, Identity, AllBuffs, Send, SenderOk, Window.Inv;
    StartSafe(100, 4, 100, 4, 100, 4);
    StartIs(s);
    SafeParts(s);
    ThreeDats(s.txQ);
    StepSends(s, [0, 0, 0]);
    assert [] + Copies([0], 3) == Copies([0], 3);
  }

  // Three packets of one byte each, put on the wire.
  lemma ThreeSent() returns (s: System)
    ensures Reachable(s) && Queues(s) && |s.sent| == 3 && s.rcv == Start(100, 4, 100, 4, 100, 4).rcv
    ensures forall t | 0 <= t < 3 :: DatHdr(t, s.sent[t], 0, false, false, false) in s.dats
  {
    hide *;
    var s0 := Start(100, 4, 100, 4, 100, 4);
    var now := (t: int) => TxNow;
    var free := (t: int) => true;
    ThreeQueued(s0);
    StartReachable(s0);
    EnabledFree(s0, UserSends([0, 0, 0], 1, false));
    ReachableStep(s0, UserSends([0, 0, 0], 1, false));
    var s1 := Step(s0, UserSends([0, 0, 0], 1, false));
    EnabledFree(s1, MarkDats(now));
    ReachableStep(s1, MarkDats(now));
    var s2 := Step(s1, MarkDats(now));
    EnabledFree(s2, SendDats(4, free));
    ReachableStep(s2, SendDats(4, free));
    s := Step(s2, SendDats(4, free));
    ReachableSafe(s1);
    QueuedIs(s1);
    SentOut(s1, s2, s, now, free);
  }

  lemma QueuedIs(s: System)
    requires Queued(s)
    ensures |s.sent| == 3
  {
  }

  lemma StartReachable(s: System)
    requires s == Start(100, 4, 100, 4, 100, 4) && Queues(s)
    ensures Reachable(s)
  {
    hide Start, Queues, Step, Enabled;
    assert Initial(s);
    assert Run([s], []) && Last([s]) == s;
  }

  lemma EnabledFree(s: System, e: Event)
    requires Queues(s) && (e.UserSends? || e.MarkDats? || e.SendDats? || e.UserReads?)
    ensures Enabled(s, e)
  {
  }

  lemma SentOut(s1: System, s2: System, s3: System, now: int -> TxState, free: int -> bool)
    requires Queues(s1) && Queues(s2) && s2 == Step(s1, MarkDats(now)) && s3 == Step(s2, SendDats(4, free))
    requires (forall t :: now(t) == TxNow) && (forall t :: free(t))
    requires Safe(s1) && Queued(s1) && |s1.sent| == 3
    ensures s3.rcv == s1.rcv && s3.sent == s1.sent
    ensures forall t | 0 <= t < 3 :: DatHdr(t, s1.sent[t], 0, false, false, false) in s3.dats
  {
    SafeParts(s1);
    var w := s2.txQ;
    RemarkHas(s1.txQ, now);
    IdentityKind(s1.txQ);
    hide Safe, NetTx, Identity, AllBuffs;
    forall t | w.Has(t) ensures var p := w.At(t).buff; p.kind == KindDat && p.txState == TxNow && !p.dat.noAck {
      assert s1.txQ.Has(t) && 0 <= t < 3;
    }
    SendsAll(w, 0, 4, free, []);
    NetTxComplete(w, 0, 4, free, []);
    var r := NetTx(w, 0, 4, free, []);
    assert r.out[0..] == r.out;
    forall t | 0 <= t < 3 ensures DatHdr(t, s1.sent[t], 0, false, false, false) in s3.dats {
      assert w.Has(t) && Sent(t, w.At(t).buff) in r.out;
      assert w.At(t).buff.dat in DatsOf(r.out);
    }
  }

  lemma IdentityKind(w: PacketQ)
    requires Identity(w)
    ensures forall t | w.Has(t) :: t < w.wrSeq && w.At(t).buff.kind == KindDat
  {
  }

  lemma ArriveStep(s: System, d: DatHdr, rd: nat, wr: nat, readable: int, has: set<int>, acked: set<int>, wr': nat)
    returns (v: System)
    requires Reachable(s) && Queues(s) && d in s.dats && !d.noAck
    requires Holds(s.rcv.rxQ, rd, wr, readable, has, acked)
    requires rd <= d.seqNum < rd + 4 && d.seqNum !in has && d.seqNum !in acked
    requires wr <= wr' < rd + 4 && wr' !in has + {d.seqNum} && forall t | wr <= t < wr' :: t in has + {d.seqNum}
    ensures Reachable(v) && Queues(v) && v.sent == s.sent && v.dats == s.dats && v.rcv.txQ == s.rcv.txQ
    ensures Holds(v.rcv.rxQ, rd, wr', readable + (if wr' > wr then 1 else 0), has + {d.seqNum}, acked)
  {
    hide *;
    var e := DatArrives(d);
    ReachableSafe(s);
    SafeParts(s);
    DatsHas(s.dats, s.sent, d);
    DatOkIs(d, s.sent);
    EnabledMore(s, e);
    ReachableStep(s, e);
    v := Step(s, e);
    DatArrivesIs(s, e);
    Arrives(s.rcv, d, rd, wr, readable, has, acked, wr');
  }

  lemma DatOkIs(d: DatHdr, sent: seq<Bytes>)
    requires DatOk(d, sent)
    ensures Fresh(d)
  {
  }

  lemma EnabledMore(s: System, e: Event)
    requires Queues(s) && s.rcv.rxQ.Inv() && s.rcv.txQ.Inv()
    requires (e.DatArrives? && e.d in s.dats) || (e.MakeAcks? && e.behind.count == 0)
    ensures Enabled(s, e)
  {
    hide Horizon, FillsBuffer, Room, SacksNeeded;
  }

  lemma AckStep(s: System, rd: nat, wr: nat, readable: int, has: set<int>, acked: set<int>) returns (v: System)
    requires Reachable(s) && Queues(s) && s.rcv.txQ.Inv() && Room(s.rcv.txQ) > 0 && wr <= 4
    requires Holds(s.rcv.rxQ, rd, wr, readable, has, acked) && readable != 0 && forall t | t in has :: t < wr
    ensures Reachable(v) && Queues(v) && v.sent == s.sent && v.dats == s.dats
    ensures Holds(v.rcv.rxQ, rd, wr, readable, has, has)
  {
    hide *;
    var e := MakeAcks(1, 4, NO_FIELD);
    ReachableSafe(s);
    SafeParts(s);
    NoCount();
    EnabledMore(s, e);
    ReachableStep(s, e);
    v := Step(s, e);
    MakeAcksIs(s, e);
    Acknowledges(s.rcv, rd, wr, readable, has, acked);
  }

  lemma NoCount()
    ensures NO_FIELD.count == 0
  {
  }

  lemma ReadStep(s: System, rd: nat, wr: nat, readable: int, has: set<int>, acked: set<int>) returns (v: System)
    requires Reachable(s) && Queues(s) && Holds(s.rcv.rxQ, rd, wr, readable, has, acked) && rd < wr && rd in acked && rd in has
    ensures Reachable(v) && Queues(v) && v.sent == s.sent && v.dats == s.dats
    ensures Holds(v.rcv.rxQ, rd + 1, wr, readable - 1, has - {rd}, acked)
  {
    hide *;
    var e := UserReads(1);
    ReachableSafe(s);
    SafeParts(s);
    EnabledFree(s, e);
    ReachableStep(s, e);
    v := Step(s, e);
    UserReadsIs(s, e);
    Reads(s.rcv.rxQ, rd, wr, readable, has, acked);
  }

  lemma StartHolds(r: Receiver)
    requires r == Start(100, 4, 100, 4, 100, 4).rcv
    ensures Holds(r.rxQ, 0, 0, 0, {}, {}) && r.txQ.Inv() && Room(r.txQ) > 0
  {
  }

  /** A run that stalls: three packets are sent.  Number 1 arrives before number 0, so the write
      edge moves by two and the counter by one; two reads with one arrival between them bring
      the counter to zero while number 2 waits.  It is not acknowledged or handed out any more. */
  lemma StallReached() returns (s: System)
    ensures Reachable(s) && Queues(s) && Stalled(s) && Wants(s.rcv.rxQ, 2) && |s.sent| == 3
    ensures forall packets, slots, behind :: GenerateAcks(s.rcv, packets, slots, behind) == (s.rcv, NoError, [])
  {
    hide *;
    var s0 := ThreeSent();
    StartHolds(s0.rcv);
    var d0, d1, d2 := DatHdr(0, s0.sent[0], 0, false, false, false), DatHdr(1, s0.sent[1], 0, false, false, false),
                      DatHdr(2, s0.sent[2], 0, false, false, false);
    var s1 := ArriveStep(s0, d1, 0, 0, 0, {}, {}, 0);
    var s2 := ArriveStep(s1, d0, 0, 0, 0, {} + {1}, {}, 2);
    var s3 := AckStep(s2, 0, 2, 1, {} + {1} + {0}, {});
    var s4 := ReadStep(s3, 0, 2, 1, {} + {1} + {0}, {} + {1} + {0});
    var s5 := ArriveStep(s4, d2, 1, 2, 0, {} + {1} + {0} - {0}, {} + {1} + {0}, 3);
    s := ReadStep(s5, 1, 3, 1, {} + {1} + {0} - {0} + {2}, {} + {1} + {0});
    ReachableSafe(s);
    SafeParts(s);
    StalledAt(s, {} + {1} + {0} - {0} + {2} - {1}, {} + {1} + {0});
    forall packets, slots, behind ensures GenerateAcks(s.rcv, packets, slots, behind) == (s.rcv, NoError, []) {
      Unchanged(s.rcv, packets, slots, behind);
    }
  }

  lemma StalledAt(s: System, has: set<int>, acked: set<int>)
    requires Holds(s.rcv.rxQ, 2, 3, 0, has, acked) && 2 in has && 2 !in acked && |s.sent| == 3
    ensures Stalled(s) && Wants(s.rcv.rxQ, 2) && s.rcv.rxQ.readable == 0
  {
  }
}
