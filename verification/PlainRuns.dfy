/** Runs in which every send wants its packets acknowledged.  Nothing in the source sets the
    bit that says otherwise, so between two ends of that code all runs are of this kind, and
    what goes wrong with many short runs of packets in the receive window does not happen. */
module PlainRuns {
  import opened Basics
  import opened RingWindow
  import opened Packets
  import opened Sender
  import opened UserTx
  import opened Receiver
  import opened AckProofs
  import opened AckExact
  import opened AckRuns
  import opened Acks
  import opened AckAccepted
  import opened RecvProofs
  import opened Stale
  import opened Protocol
  import opened ProtocolProofs
  import opened Delivery

  ghost predicate AllAsk(w: PacketQ) { forall t | w.Has(t) :: !w.At(t).buff.dat.noAck }

  // Every data packet, wherever it is, wants an acknowledgement.
  ghost predicate Plain(s: System) {
    AllAsk(s.txQ) && AllAsk(s.rcv.rxQ) && forall d | d in s.dats :: !d.noAck
  }

  // ---- What every step keeps ----

  lemma AppendsAsk(w: PacketQ, w': PacketQ, payload: Bytes)
    requires AllAsk(w) && Appends(w, w', payload, false)
    ensures AllAsk(w')
  {
    hide AllBuffs, Identity;
  }

  lemma FewerAsk(w: PacketQ, w': PacketQ)
    requires AllAsk(w)
    requires forall t | w'.Has(t) :: w.Has(t) && w'.At(t).buff.dat.noAck == w.At(t).buff.dat.noAck
    ensures AllAsk(w')
  {
  }

  lemma KeepsNoAck(w: PacketQ, w': PacketQ, i: int, j: int)
    requires Keeps(w, w', i, j)
    ensures forall t | w'.Has(t) :: w.Has(t) && w'.At(t).buff.dat.noAck == w.At(t).buff.dat.noAck
  {
    hide Window.Inv, Expendable;
  }

  lemma SendsNoAck(w: PacketQ, i: int, j: int, out: seq<Sent>)
    requires AllAsk(w) && Sends(w, i, j, out)
    ensures forall d | d in DatsOf(out) :: !d.noAck
  {
    forall d | d in DatsOf(out) ensures !d.noAck {
      var o :| o in out && o.pkt.kind == KindDat && o.pkt.dat == d;
      var k :| 0 <= k < |out| && out[k] == o;
      assert w.Has(out[k].slot);
    }
  }

  lemma PlainSends(s: System, e: Event)
    requires Safe(s) && Queues(s) && Plain(s) && e.UserSends? && !e.noAck
    ensures Plain(Step(s, e))
  {
    hide *;
    SafeParts(s);
    var payload := if e.datSpace < 1 then [] else Take(e.data, e.datSpace);
    QueuedBy(s.txQ, s.sent, e.data, e.datSpace, e.noAck, payload);
    PlainParts(s);
    AppendsAsk(s.txQ, Send(s.txQ, s.seqSnd, e.data, e.datSpace, e.noAck, 0, []).w, payload);
    UserSendsIs(s, e);
    PlainWhole(Step(s, e));
  }

  lemma PlainTransmits(s: System, e: Event)
    requires Safe(s) && Queues(s) && Plain(s) && e.SendDats?
    ensures Plain(Step(s, e))
  {
    hide *;
    SafeParts(s);
    PlainParts(s);
    var w := s.txQ;
    var r := NetTx(w, w.rdSeq, e.maxDatSlots, e.datHw, []);
    NetTxKeeps(w, w.rdSeq, e.maxDatSlots, e.datHw, []);
    NetTxSends(w, w.rdSeq, e.maxDatSlots, e.datHw, []);
    var j := Max(w.rdSeq, w.wrSeq + 1);
    KeepsNoAck(w, r.w, w.rdSeq, j);
    FewerAsk(w, r.w);
    assert r.out[0..] == r.out;
    SendsNoAck(w, w.rdSeq, j, r.out);
    SendDatsIs(s, e);
    PlainWhole(Step(s, e));
  }

  lemma PlainMarks(s: System, e: Event)
    requires Safe(s) && Queues(s) && Plain(s) && e.MarkDats?
    ensures Plain(Step(s, e))
  {
    RemarkHas(s.txQ, e.mark);
    hide Remark, Safe, Window.Inv;
  }

  lemma PlainArrives(s: System, e: Event)
    requires Safe(s) && Queues(s) && Plain(s) && e.DatArrives? && e.d in s.dats
    ensures Plain(Step(s, e))
  {
    hide *;
    SafeParts(s);
    PlainParts(s);
    DatsHas(s.dats, s.sent, e.d);
    RxDatFacts(s.rcv, e.d);
    StoredAsk(s.rcv.rxQ, OnRxDat(s.rcv, e.d).0.rxQ, e.d);
    DatArrivesIs(s, e);
    PlainWhole(Step(s, e));
  }

  lemma StoredAsk(w: PacketQ, w': PacketQ, d: DatHdr)
    requires AllAsk(w) && !d.noAck
    requires w' == w || (w'.Has(d.seqNum) && w'.At(d.seqNum).buff == RxPacket(d))
    requires (forall t | t != d.seqNum :: w'.Has(t) <==> w.Has(t)) && (forall t | w.Has(t) :: w'.Has(t) && w'.At(t) == w.At(t))
    ensures AllAsk(w')
  {
  }

  lemma PlainAcks(s: System, e: Event)
    requires Safe(s) && Queues(s) && Plain(s) && e.MakeAcks?
    ensures Plain(Step(s, e))
  {
    hide *;
    SafeParts(s);
    PlainParts(s);
    GenerateAcksKeeps(s.rcv, e.maxAckPackets, e.maxAckSlots, e.behind);
    SameAsk(s.rcv.rxQ, GenerateAcks(s.rcv, e.maxAckPackets, e.maxAckSlots, e.behind).0.rxQ);
    MakeAcksIs(s, e);
    PlainWhole(Step(s, e));
  }

  lemma SameAsk(w: PacketQ, w': PacketQ)
    requires AllAsk(w) && SameWindow(w, w')
    ensures AllAsk(w')
  {
    forall t | w'.Has(t) ensures !w'.At(t).buff.dat.noAck {
      assert w.InRange(t) && w'.At(t).valid == w.At(t).valid;
    }
  }

  lemma PlainAckArrives(s: System, e: Event)
    requires Safe(s) && Queues(s) && Plain(s) && e.AckArrives?
    ensures Plain(Step(s, e))
  {
    hide *;
    SafeParts(s);
    PlainParts(s);
    AckAllExact(s.txQ, Expand(e.a.base, e.a.fields));
    FewerAsk(s.txQ, AckAll(s.txQ, Expand(e.a.base, e.a.fields)));
    AckArrivesIs(s, e);
    PlainWhole(Step(s, e));
  }

  lemma PlainReads(s: System, e: Event)
    requires Safe(s) && Queues(s) && Plain(s) && e.UserReads?
    ensures Plain(Step(s, e))
  {
    hide *;
    SafeParts(s);
    PlainParts(s);
    UserRxFacts(s.rcv.rxQ, e.len);
    ReadHas(s.rcv.rxQ, s.sent);
    FewerAsk(s.rcv.rxQ, UserRx(s.rcv.rxQ, e.len).0);
    UserReadsIs(s, e);
    PlainWhole(Step(s, e));
  }

  // Steps that concern the stale list and the queue of outgoing acknowledgements.
  lemma PlainElsewhere(s: System, e: Event)
    requires Queues(s) && Plain(s) && (e.MarkAcks? || e.SendAcks? || e.MakeStaleAcks?)
    ensures Plain(Step(s, e))
  {
    hide NetTx, Remark, StaleFlush, StaleLoop, AllAsk;
  }

  lemma PlainParts(s: System)
    requires Plain(s)
    ensures AllAsk(s.txQ) && AllAsk(s.rcv.rxQ) && forall d | d in s.dats :: !d.noAck
  {
  }

  lemma PlainWhole(s: System)
    requires AllAsk(s.txQ) && AllAsk(s.rcv.rxQ) && forall d | d in s.dats :: !d.noAck
    ensures Plain(s)
  {
  }

  lemma PlainStep(s: System, e: Event)
    requires Safe(s) && Queues(s) && Enabled(s, e) && Plain(s) && (e.UserSends? ==> !e.noAck)
    ensures Plain(Step(s, e))
  {
    hide *;
    EnabledIs(s, e);
    match e {
      case UserSends(_, _, _) => PlainSends(s, e);
      case MarkDats(_) => PlainMarks(s, e);
      case SendDats(_, _) => PlainTransmits(s, e);
      case DatArrives(_) => PlainArrives(s, e);
      case MakeAcks(_, _, _) => PlainAcks(s, e);
      case AckArrives(_) => PlainAckArrives(s, e);
      case UserReads(_) => PlainReads(s, e);
      case _ => PlainElsewhere(s, e);
    }
  }

  // ---- Runs ----

  // Every packet that is sent is to be acknowledged.
  ghost predicate AsksAlways(events: seq<Event>) { forall e | e in events :: e.UserSends? ==> !e.noAck }

  lemma InitialPlain(s: System)
    requires Initial(s)
    ensures Plain(s)
  {
  }

  lemma {:induction false} PlainRun(states: seq<System>, events: seq<Event>, i: nat)
    requires Run(states, events) && Initial(states[0]) && AsksAlways(events) && i < |states|
    ensures Plain(states[i])
  {
    hide *;
    InitialSafe(states[0]);
    if i > 0 {
      PlainRun(states, events, i - 1);
      RunSafe(states, events, i - 1);
      RunStep(states, events, i - 1);
      AlwaysAt(events, i - 1);
      PlainStep(states[i - 1], events[i - 1]);
    } else {
      InitialPlain(states[0]);
    }
  }

  lemma AlwaysAt(events: seq<Event>, i: nat)
    requires AsksAlways(events) && i < |events|
    ensures events[i].UserSends? ==> !events[i].noAck
  {
    assert events[i] in events;
  }

  // A state that such a run from fresh queues leads to.
  ghost predicate PlainlyReachable(s: System) {
    exists states, events ::
      Run(states, events) && Initial(states[0]) && Last(states) == s && AsksAlways(events)
  }

  lemma PlainReached(s: System)
    requires PlainlyReachable(s)
    ensures Safe(s) && Plain(s)
  {
    hide Initial, Step, Enabled, Queues, Safe, Plain, AsksAlways;
    var states, events :| Run(states, events) && Initial(states[0]) && Last(states) == s && AsksAlways(events);
    InitialSafe(states[0]);
    RunSafe(states, events, |states| - 1);
    PlainRun(states, events, |states| - 1);
  }

  // In such a window the packets that want an acknowledgement are a single run.
  lemma {:induction false} OneRun(w: PacketQ, h: int)
    requires RxWindow(w) && AllAsk(w) && h <= w.wrSeq + 1
    ensures ClosedRuns(w, h) <= if h <= w.wrSeq then 0 else 1
    decreases h - w.rdSeq
  {
    if h > w.rdSeq + 1 {
      OneRun(w, h - 1);
      if h <= w.wrSeq {
        assert w.Has(h - 1) && w.Has(h - 2);
      }
      hide ClosedRuns;
    }
  }

  lemma OneNeeded(w: PacketQ, h: int)
    requires RxWindow(w) && AllAsk(w) && h <= w.wrSeq + 1
    ensures ClosedRuns(w, h) <= 1 && ClosedRuns(w, h - 1) <= 1 && SacksNeeded(w, h) <= 1 && !FillsBuffer(w, h)
  {
    OneRun(w, h);
    OneRun(w, h - 1);
    hide ClosedRuns, RxWindow, AllAsk, Wants;
  }

  /** In these runs every call of generateAcks stays in its field buffer, whatever memory holds,
      needs room for one SACK at most, and with that room gets all its acknowledgements across
      unless it leaves at once because the readable counter is zero, or its offsets do not
      reach. */
  lemma PlainCallsExact(s: System, packets: int, slots: nat, behind: SackField)
    requires PlainlyReachable(s) && packets > 0
    ensures var r := s.rcv;
            && r.rxQ.Inv() && r.txQ.Inv()
            && StaysInBuffer(r, packets, slots, behind)
            && SacksNeeded(r.rxQ, Horizon(r.rxQ, slots)) <= 1
            && (Small(r.rxQ) && Room(r.txQ) > 0 ==>
                  var (_, err, log) := GenerateAcks(r, packets, slots, behind);
                  var h := Horizon(r.rxQ, slots);
                  && err == NoError
                  && (Flatten(Accepted(log)) == Wanted(r.rxQ, h)
                      <==> Wanted(r.rxQ, h) == [] || (r.rxQ.readable != 0 && Reaches(r.rxQ, r.seqAck, h))))
  {
    hide *;
    var r := s.rcv;
    PlainReached(s);
    SafeParts(s);
    PlainParts(s);
    HorizonBound(r.rxQ, slots);
    OneNeeded(r.rxQ, Horizon(r.rxQ, slots));
    NeverFull(r, packets, slots, behind);
    if Small(r.rxQ) && Room(r.txQ) > 0 {
      AcceptedExact(r, packets, slots, behind);
      NamesAll(r, packets, slots, behind);
    }
  }

  lemma HorizonBound(w: PacketQ, slots: nat)
    requires w.Inv()
    ensures Horizon(w, slots) <= w.wrSeq + 1
  {
  }

  lemma NeverFull(r: Receiver, packets: int, slots: nat, behind: SackField)
    requires r.rxQ.Inv() && r.txQ.Inv() && !FillsBuffer(r.rxQ, Horizon(r.rxQ, slots))
    ensures StaysInBuffer(r, packets, slots, behind)
  {
    hide Horizon, FillsBuffer, Room, SacksNeeded;
  }
}
