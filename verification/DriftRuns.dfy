/** The readable counter of the receive window over whole runs.  It never runs ahead of the
    packets that wait; it falls behind exactly when an arriving packet closes a gap. */
module DriftRuns {
  import opened Basics
  import opened RingWindow
  import opened Packets
  import opened Receiver
  import opened AckProofs
  import opened AckExact
  import opened AckRuns
  import opened AckAccepted
  import opened Acks
  import opened RecvProofs
  import opened Protocol
  import opened ProtocolProofs
  import opened Delivery
  import opened Stall
  import opened PlainRuns

  // How many more packets wait than the counter says.
  function Lag(w: PacketQ): int { w.wrSeq - w.rdSeq - w.readable }

  // The packet takes the place of the first one missing, and the one behind it is there.
  predicate ClosesGap(w: PacketQ, d: DatHdr) {
    w.InRange(d.seqNum) && d.seqNum == w.wrSeq && w.Has(w.wrSeq + 1)
  }

  // ---- What each operation does to the counter ----

  lemma ArrivalLag(r: Receiver, d: DatHdr)
    requires RxWindow(r.rxQ) && AckEdge(r.rxQ, r.seqAck) && Fresh(d) && r.rxQ.Inv()
    ensures var w, w' := r.rxQ, OnRxDat(r, d).0.rxQ;
            Lag(w') >= Lag(w) && (Lag(w') == Lag(w) <==> !ClosesGap(w, d))
  {
    RxDatFacts(r, d);
    hide OnRxDat;
    if r.rxQ.InRange(d.seqNum) && !r.rxQ.Has(d.seqNum) {
      ArrivalCounts(r, d);
      var w, w' := r.rxQ, OnRxDat(r, d).0.rxQ;
      assert w'.wrSeq > w.wrSeq ==> w'.Has(w.wrSeq);
      assert w'.wrSeq > w.wrSeq + 1 ==> w'.Has(w.wrSeq + 1);
      assert w'.Has(w'.wrSeq) ==> w'.wrSeq == w'.rdSeq + w'.Count();
    }
  }

  lemma ReadLag(w: PacketQ, len: nat)
    requires RxWindow(w) && w.Inv()
    ensures Lag(UserRx(w, len).0) == Lag(w)
  {
    UserRxFacts(w, len);
    if w.rdSeq < w.wrSeq {
      assert w.Has(w.rdSeq);
      ReleaseCounts(w);
    }
    hide Release;
  }

  lemma AckLag(r: Receiver, packets: int, slots: nat, behind: SackField)
    requires RxWindow(r.rxQ) && AckEdge(r.rxQ, r.seqAck) && r.txQ.Inv() && r.rxQ.Inv()
    ensures Lag(GenerateAcks(r, packets, slots, behind).0.rxQ) == Lag(r.rxQ)
  {
    hide *;
    if packets <= 0 || r.rxQ.readable == 0 {
      Unchanged(r, packets, slots, behind);
    } else {
      CallRuns(r, slots, behind);
      CallResult(r, packets, slots, behind);
      var s := AckLoop(AckStart(r, behind), r.rxQ.rdSeq, slots);
      EndedIs(r, slots, behind, s);
      EndDone(r.rxQ, r.txQ, s, Reach(r, slots));
      DoneIs(r.rxQ, r.txQ, AckEnd(s), Reach(r, slots));
      HasSame(r.rxQ, AckEnd(s).st.rxQ, Reach(r, slots));
      LagSame(r.rxQ, AckEnd(s).st.rxQ);
    }
  }

  lemma LagSame(w: PacketQ, w': PacketQ)
    requires w'.rdSeq == w.rdSeq && w'.wrSeq == w.wrSeq && w'.readable == w.readable
    ensures Lag(w') == Lag(w)
  {
  }

  /** One step.  The counter loses touch with the window when a gap is closed, and at no other
      time; it never catches up. */
  lemma LagStep(s: System, e: Event)
    requires Safe(s) && Queues(s) && Enabled(s, e)
    ensures var w, w' := s.rcv.rxQ, Step(s, e).rcv.rxQ;
            Lag(w') >= Lag(w) && (Lag(w') == Lag(w) <==> !(e.DatArrives? && ClosesGap(w, e.d)))
  {
    hide *;
    SafeParts(s);
    EnabledIs(s, e);
    match e {
      case DatArrives(d) =>
        DatsHas(s.dats, s.sent, d);
        ArrivalLag(s.rcv, d);
        DatArrivesIs(s, e);
      case MakeAcks(packets, slots, behind) =>
        AckLag(s.rcv, packets, slots, behind);
        MakeAcksIs(s, e);
      case UserReads(len) =>
        ReadLag(s.rcv.rxQ, len);
        UserReadsIs(s, e);
      case UserSends(_, _, _) => UserSendsIs(s, e);
      case _ => StepElsewhere(s, e);
    }
  }

  // ---- Runs ----

  lemma InitialLag(s: System)
    requires Initial(s)
    ensures Lag(s.rcv.rxQ) == 0 && NoneAbove(s.rcv.rxQ)
  {
  }

  lemma {:induction false} LagRun(states: seq<System>, events: seq<Event>, i: nat)
    requires Run(states, events) && Initial(states[0]) && i < |states|
    ensures Lag(states[i].rcv.rxQ) >= 0
  {
    hide *;
    InitialSafe(states[0]);
    if i > 0 {
      LagRun(states, events, i - 1);
      RunSafe(states, events, i - 1);
      RunStep(states, events, i - 1);
      LagStep(states[i - 1], events[i - 1]);
    } else {
      InitialLag(states[0]);
    }
  }

  /** In every reachable state the counter is at most the number of packets that wait. */
  lemma ReadableBound(s: System)
    requires Reachable(s)
    ensures s.rcv.rxQ.readable <= s.rcv.rxQ.wrSeq - s.rcv.rxQ.rdSeq
  {
    hide *;
    var states, events := ReachedBy(s);
    LagRun(states, events, |states| - 1);
    LagIs(s.rcv.rxQ);
  }

  lemma LagIs(w: PacketQ)
    ensures Lag(w) == w.wrSeq - w.rdSeq - w.readable
  {
  }

  // ---- Runs without gaps ----

  ghost predicate NoneAbove(w: PacketQ) { forall t | w.Has(t) :: t < w.wrSeq }

  // No packet arrives before all those in front of it.
  ghost predicate InOrder(states: seq<System>, events: seq<Event>) {
    && |states| == |events| + 1
    && forall i | 0 <= i < |events| :: events[i].DatArrives? ==> events[i].d.seqNum <= states[i].rcv.rxQ.wrSeq
  }

  lemma InOrderAt(states: seq<System>, events: seq<Event>, i: nat)
    requires InOrder(states, events) && i < |events|
    ensures i < |states| && (events[i].DatArrives? ==> events[i].d.seqNum <= states[i].rcv.rxQ.wrSeq)
  {
  }

  lemma StoredBelow(w: PacketQ, w': PacketQ, d: DatHdr)
    requires NoneAbove(w) && RxWindow(w') && w'.wrSeq >= w.wrSeq && d.seqNum <= w.wrSeq
    requires w' == w || (w'.Has(d.seqNum) && w'.InRange(d.seqNum))
    requires forall t | t != d.seqNum :: w'.Has(t) <==> w.Has(t)
    ensures NoneAbove(w') && !ClosesGap(w, d)
  {
  }

  lemma FewerBelow(w: PacketQ, w': PacketQ)
    requires NoneAbove(w) && w'.wrSeq == w.wrSeq && forall t | w'.Has(t) :: w.Has(t)
    ensures NoneAbove(w')
  {
  }

  lemma SameBelow(w: PacketQ, w': PacketQ)
    requires NoneAbove(w) && SameWindow(w, w')
    ensures NoneAbove(w')
  {
    forall t | w'.Has(t) ensures t < w'.wrSeq {
      assert w.InRange(t) && w'.At(t).valid == w.At(t).valid;
      assert w.Has(t);
    }
  }

  lemma BelowStep(s: System, e: Event)
    requires Safe(s) && Queues(s) && Enabled(s, e) && NoneAbove(s.rcv.rxQ)
    requires e.DatArrives? ==> e.d.seqNum <= s.rcv.rxQ.wrSeq
    ensures NoneAbove(Step(s, e).rcv.rxQ) && !(e.DatArrives? && ClosesGap(s.rcv.rxQ, e.d))
  {
    hide *;
    SafeParts(s);
    EnabledIs(s, e);
    match e {
      case DatArrives(d) =>
        DatsHas(s.dats, s.sent, d);
        RxDatFacts(s.rcv, d);
        HasInRange(OnRxDat(s.rcv, d).0.rxQ, d.seqNum);
        StoredBelow(s.rcv.rxQ, OnRxDat(s.rcv, d).0.rxQ, d);
        DatArrivesIs(s, e);
      case MakeAcks(packets, slots, behind) =>
        GenerateAcksKeeps(s.rcv, packets, slots, behind);
        SameBelow(s.rcv.rxQ, GenerateAcks(s.rcv, packets, slots, behind).0.rxQ);
        MakeAcksIs(s, e);
      case UserReads(len) =>
        UserRxFacts(s.rcv.rxQ, len);
        ReadHas(s.rcv.rxQ, s.sent);
        FewerBelow(s.rcv.rxQ, UserRx(s.rcv.rxQ, len).0);
        UserReadsIs(s, e);
      case UserSends(_, _, _) => UserSendsIs(s, e);
      case _ => StepElsewhere(s, e);
    }
  }

  lemma HasInRange(w: PacketQ, t: int)
    ensures w.Has(t) ==> w.InRange(t)
  {
  }

  lemma {:induction false} InOrderLag(states: seq<System>, events: seq<Event>, i: nat)
    requires Run(states, events) && Initial(states[0]) && InOrder(states, events) && i < |states|
    ensures Lag(states[i].rcv.rxQ) == 0 && NoneAbove(states[i].rcv.rxQ)
  {
    hide *;
    InitialSafe(states[0]);
    InitialLag(states[0]);
    if i > 0 {
      InOrderLag(states, events, i - 1);
      RunSafe(states, events, i - 1);
      RunStep(states, events, i - 1);
      InOrderAt(states, events, i - 1);
      BelowStep(states[i - 1], events[i - 1]);
      LagStep(states[i - 1], events[i - 1]);
    }
  }

  /** As long as packets arrive in order the counter is exact, and the receiver does not stall. */
  lemma InOrderCounts(states: seq<System>, events: seq<Event>, i: nat)
    requires Run(states, events) && Initial(states[0]) && InOrder(states, events) && i < |states|
    ensures var w := states[i].rcv.rxQ; w.readable == w.wrSeq - w.rdSeq
    ensures !Stalled(states[i])
  {
    InOrderLag(states, events, i);
    hide Run, Initial, InOrder;
  }

  /** If the sends want acknowledgements too, a call with room for one SACK gets all its
      acknowledgements across, as long as its offsets reach. */
  lemma InOrderGetAcross(states: seq<System>, events: seq<Event>, i: nat, packets: int, slots: nat, behind: SackField)
    requires Run(states, events) && Initial(states[0]) && InOrder(states, events) && AsksAlways(events) && i < |states|
    requires packets > 0 && Small(states[i].rcv.rxQ)
    ensures var r := states[i].rcv;
            && r.rxQ.Inv() && r.txQ.Inv()
            && (Room(r.txQ) > 0 ==>
                  var (_, err, log) := GenerateAcks(r, packets, slots, behind);
                  var h := Horizon(r.rxQ, slots);
                  && err == NoError
                  && (Flatten(Accepted(log)) == Wanted(r.rxQ, h) <==> Reaches(r.rxQ, r.seqAck, h)))
  {
    hide *;
    PlainPrefix(states, events, i);
    PlainCallsExact(states[i], packets, slots, behind);
    InOrderLag(states, events, i);
    var w := states[i].rcv.rxQ;
    LagIs(w);
    if w.readable == 0 { NothingWaits(w, Horizon(w, slots)); }
    if Wanted(w, Horizon(w, slots)) == [] { NothingToReach(w, states[i].rcv.seqAck, Horizon(w, slots)); }
  }

  lemma PlainPrefix(states: seq<System>, events: seq<Event>, i: nat)
    requires Run(states, events) && Initial(states[0]) && AsksAlways(events) && i < |states|
    ensures PlainlyReachable(states[i])
  {
    hide Initial, Step, Enabled, Queues;
    var begun := states[..i + 1];
    assert Run(begun, events[..i]) && begun[0] == states[0] && Last(begun) == states[i];
    assert forall e | e in events[..i] :: e in events;
    assert AsksAlways(events[..i]);
  }

  lemma {:induction false} NothingWaits(w: PacketQ, h: int)
    requires NoneAbove(w) && w.wrSeq == w.rdSeq
    ensures Wanted(w, h) == []
    decreases h - w.rdSeq
  {
    if h > w.rdSeq { NothingWaits(w, h - 1); }
  }
}
