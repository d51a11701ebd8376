/** What holds in every state of every run, in terms of what the two users see. */
module Delivery {
  import opened Basics
  import opened RingWindow
  import opened Packets
  import opened LinkedList
  import opened Sender
  import opened Receiver
  import opened AckProofs
  import opened RecvProofs
  import opened AckExact
  import opened AckRuns
  import opened AckAccepted
  import opened Stale
  import opened StaleRuns
  import opened StaleEnds
  import opened StaleCalls
  import opened Acks
  import opened Protocol
  import opened ProtocolProofs

  // A state that some run from fresh queues leads to.
  ghost predicate Reachable(s: System) {
    exists states, events :: Run(states, events) && Initial(states[0]) && Last(states) == s
  }

  ghost predicate Initial(s: System) {
    exists txSize, txCount: nat, rxSize, rxCount: nat, ackSize, ackCount: nat {:trigger Start(txSize, txCount, rxSize, rxCount, ackSize, ackCount)} ::
      txCount > 0 && rxCount > 0 && ackCount > 0 && s == Start(txSize, txCount, rxSize, rxCount, ackSize, ackCount)
  }

  lemma ReachedBy(s: System) returns (states: seq<System>, events: seq<Event>)
    requires Reachable(s)
    ensures Run(states, events) && |states| > 0 && Initial(states[0]) && states[|states| - 1] == s
  {
    hide Initial, Step, Enabled, Queues;
    states, events :| Run(states, events) && Initial(states[0]) && Last(states) == s;
  }

  lemma InitialSafe(s: System)
    requires Initial(s)
    ensures Safe(s)
  {
    hide Safe, Start;
    var txSize, txCount: nat, rxSize, rxCount: nat, ackSize, ackCount: nat {:trigger Start(txSize, txCount, rxSize, rxCount, ackSize, ackCount)} :|
      txCount > 0 && rxCount > 0 && ackCount > 0 && s == Start(txSize, txCount, rxSize, rxCount, ackSize, ackCount);
    StartSafe(txSize, txCount, rxSize, rxCount, ackSize, ackCount);
  }

  lemma ReachableSafe(s: System)
    requires Reachable(s)
    ensures Safe(s) && Queues(s)
  {
    hide *;
    var states, events := ReachedBy(s);
    InitialSafe(states[0]);
    RunSafe(states, events, |states| - 1);
    SafeQueues(s);
  }

  /** In-order, exactly-once delivery.  Whatever the network does and whatever transmission
      control decides, the receiver's user has been handed the first rdSeq payloads that were
      sent: in order, none missing, none twice, each cut only to the buffer it was read into. */
  lemma InOrderDelivery(s: System)
    requires Reachable(s)
    ensures s.rcv.rxQ.rdSeq <= s.rcv.rxQ.wrSeq <= |s.sent|
    ensures |s.delivered| == |s.asked| == s.rcv.rxQ.rdSeq
    ensures forall i | 0 <= i < |s.delivered| :: s.delivered[i] == Take(s.sent[i], s.asked[i])
  {
    ReachableSafe(s);
  }

  /** Nothing is lost.  A payload that was sent is still queued at the sender under its own
      number, or the transmitter gave it up, or it waits in the receive window under its own
      number, or the user has had it. */
  lemma NothingLost(s: System, t: nat)
    requires Reachable(s) && t < |s.sent|
    ensures (s.txQ.Has(t) && s.txQ.At(t).buff.dat.seqNum == t && s.txQ.At(t).buff.dat.payload == s.sent[t])
            || t in s.freed
            || (s.rcv.rxQ.Has(t) && s.rcv.rxQ.At(t).buff.dat.payload == s.sent[t])
            || t < s.rcv.rxQ.rdSeq == |s.delivered|
  {
    ReachableSafe(s);
    assert s.rcv.rxQ.rdSeq <= t < s.rcv.rxQ.wrSeq ==> s.rcv.rxQ.Has(t);
    hide AcksOk, DatsOk, StaleOk, AckEdge;
  }

  /** What the transmitter frees on its own it was told to: the packet was marked to be
      dropped, or it was sent and wanted no acknowledgement. */
  lemma FreedOnPurpose(s: System, maxSlots: nat, hw: int -> bool, t: int)
    requires Reachable(s) && Queues(s)
    requires t in Step(s, SendDats(maxSlots, hw)).freed && t !in s.freed
    ensures s.txQ.Has(t)
    ensures var p := s.txQ.At(t).buff; p.txState == TxDrp || (p.txState == TxNow && p.dat.noAck)
  {
    ReachableSafe(s);
    var r := NetTx(s.txQ, s.txQ.rdSeq, maxSlots, hw, []);
    NetTxKeeps(s.txQ, s.txQ.rdSeq, maxSlots, hw, []);
    assert t in Gone(s.txQ, r.w);
    hide NetTx, AcksOk, DatsOk, StaleOk, AckEdge, WindowOk, UserOk, NoLoss;
  }

  /** However old, repeated or reordered a SACK is, it covers received packets only, and when
      it arrives it frees exactly the packets it names: never one that has not been received,
      and never a later packet that now sits in the same slot. */
  lemma AcksAreSound(s: System, a: Sack)
    requires Reachable(s) && Queues(s) && a in s.acks
    ensures forall t | t in Expand(a.base, a.fields) :: 0 <= t < s.rcv.rxQ.wrSeq
    ensures var w := Step(s, AckArrives(a)).txQ;
            && (forall t :: w.Has(t) <==> s.txQ.Has(t) && !(Accepts(a) && t in Expand(a.base, a.fields)))
            && (forall t | w.Has(t) :: w.At(t) == s.txQ.At(t) && w.At(t).buff.dat.seqNum == t)
  {
    hide *;
    ReachableSafe(s);
    SafeParts(s);
    AcksHave(s.rcv.txQ, s.acks, s.rcv.rxQ.wrSeq, a);
    AckAllExact(s.txQ, Expand(a.base, a.fields));
    AckArrivesIs(s, AckArrives(a));
    IdentityIs(s.txQ);
  }

  lemma IdentityIs(w: PacketQ)
    requires Identity(w)
    ensures forall t | w.Has(t) :: w.At(t).buff.dat.seqNum == t
  {
  }

  /** The SACK encoder against the decoder, in every reachable state.  A call returns at once if
      the readable counter is zero.  Otherwise it succeeds exactly when there is room for its
      SACKs, and then they expand to the packets it looked at that still wanted an
      acknowledgement, in order and each once: modulo 2^32, and exactly if and only if the
      offsets of its first buffer reach.  It marks every packet it has passed; one that runs out
      of room has sent a part of what it has marked. */
  lemma AcksAreExact(s: System, packets: int, slots: nat, behind: SackField)
    requires Reachable(s) && Queues(s) && Small(s.rcv.rxQ) && packets > 0
    requires StaysInBuffer(s.rcv, packets, slots, behind)
    ensures var (r, err, log) := GenerateAcks(s.rcv, packets, slots, behind);
            var w, h, j := s.rcv.rxQ, Horizon(s.rcv.rxQ, slots), Reach(s.rcv, slots);
            if w.readable == 0 then (r, err, log) == (s.rcv, NoError, [])
            else
              && (err == NoError <==> Room(s.rcv.txQ) >= SacksNeeded(w, h))
              && (forall t | w.Has(t) ::
                    r.rxQ.Has(t) && (r.rxQ.At(t).buff.dat.ackSent <==> w.At(t).buff.dat.ackSent || t < j))
              && (if err == NoError
                  then && j == h && AllCongruent(Flatten(log), Wanted(w, h))
                       && (Flatten(log) == Wanted(w, h) <==> Reaches(w, s.rcv.seqAck, h))
                  else && err == TryAgain && |Flatten(log)| < |Wanted(w, j)|
                       && (Reaches(w, s.rcv.seqAck, j) ==> Flatten(log) < Wanted(w, j)))
  {
    hide *;
    ReachableSafe(s);
    SafeParts(s);
    if s.rcv.rxQ.readable == 0 {
      Unchanged(s.rcv, packets, slots, behind);
    } else {
      CallExact(s.rcv, packets, slots, behind);
      MarksAre(s.rcv.rxQ, GenerateAcks(s.rcv, packets, slots, behind).0.rxQ, Reach(s.rcv, slots));
    }
  }

  lemma MarksAre(rx: PacketQ, w: PacketQ, j: int)
    requires Marked(rx, w, j)
    ensures forall t | rx.Has(t) :: w.Has(t) && (w.At(t).buff.dat.ackSent <==> rx.At(t).buff.dat.ackSent || t < j)
  {
  }

  /** Which calls acknowledge all they should, in every reachable state, given room for it: all
      but those that leave at once because the readable counter is zero, although a packet
      wants an acknowledgement, and those whose offsets do not reach. */
  lemma AcksNameAll(s: System, packets: int, slots: nat, behind: SackField)
    requires Reachable(s) && Queues(s) && Small(s.rcv.rxQ) && packets > 0
    requires StaysInBuffer(s.rcv, packets, slots, behind)
    requires Room(s.rcv.txQ) >= SacksNeeded(s.rcv.rxQ, Horizon(s.rcv.rxQ, slots))
    ensures var (r, err, log) := GenerateAcks(s.rcv, packets, slots, behind);
            var w, h := s.rcv.rxQ, Horizon(s.rcv.rxQ, slots);
            && err == NoError
            && (Flatten(log) == Wanted(w, h)
                <==> Wanted(w, h) == [] || (w.readable != 0 && Reaches(w, s.rcv.seqAck, h)))
  {
    hide *;
    ReachableSafe(s);
    SafeParts(s);
    NamesAll(s.rcv, packets, slots, behind);
  }

  /** Which calls get all their acknowledgements across, in every reachable state: the sender
      hears of exactly the packets that wanted one if and only if there are none, or the
      readable counter is not zero, the twelfth run of such packets is not closed too early,
      there is room for the SACK and its offsets reach. */
  lemma AcksGetAcross(s: System, packets: int, slots: nat, behind: SackField)
    requires Reachable(s) && Queues(s) && Small(s.rcv.rxQ) && packets > 0
    ensures var w, h := s.rcv.rxQ, Horizon(s.rcv.rxQ, slots);
            Flatten(Accepted(GenerateAcks(s.rcv, packets, slots, behind).2)) == Wanted(w, h)
            <==> Wanted(w, h) == []
                 || (w.readable != 0 && ClosedRuns(w, h - 1) < 12 && (behind.count == 0 || ClosedRuns(w, h) < 12)
                     && Room(s.rcv.txQ) >= SacksNeeded(w, h) && Reaches(w, s.rcv.seqAck, h))
  {
    hide *;
    ReachableSafe(s);
    SafeParts(s);
    AcceptedExact(s.rcv, packets, slots, behind);
  }

  /** Which calls name only packets that have arrived, whatever memory holds, in every reachable
      state: exactly those that stay in their field buffer. */
  lemma AcksSoundExactly(s: System, packets: int, slots: nat)
    requires Reachable(s) && Queues(s)
    ensures (forall behind :: LogBelow(GenerateAcks(s.rcv, packets, slots, behind).2, s.rcv.rxQ.wrSeq))
            <==> (forall behind :: StaysInBuffer(s.rcv, packets, slots, behind))
  {
    hide *;
    ReachableSafe(s);
    SafeParts(s);
    SoundExact(s.rcv, packets, slots);
  }

  /** The receive window has no holes below its write edge, and every packet in it is what was
      sent under its number.  A data packet that arrives is taken in exactly when it falls
      into the window and is not there yet; otherwise the window stays as it is.  Each way
      reports its own result: only a packet that is there already makes the caller try again
      later, only one past the window is out of range, and only one from below it that wants
      no acknowledgement is an error; one that wants it joins the stale list. */
  lemma ReceiveWindow(s: System, d: DatHdr)
    requires Reachable(s) && Queues(s) && d in s.dats
    ensures var w, w' := s.rcv.rxQ, Step(s, DatArrives(d)).rcv.rxQ;
            && (forall t | w.rdSeq <= t < w.wrSeq :: w.Has(t))
            && (forall t | w.Has(t) ::
                  t < |s.sent| && w.At(t).buff.dat.seqNum == t && w.At(t).buff.dat.payload == s.sent[t])
            && (!w.InRange(d.seqNum) || w.Has(d.seqNum) ==> w' == w)
            && (w.InRange(d.seqNum) ==> forall t :: w'.Has(t) <==> w.Has(t) || t == d.seqNum)
            && (forall t | w.Has(t) :: w'.At(t) == w.At(t))
            && (w.InRange(d.seqNum) && !w.Has(d.seqNum) ==>
                  w'.Has(d.seqNum) && w'.At(d.seqNum).buff == Packet(TxRdy, KindDat, d, Sack(0, 0, [])))
    ensures var w, l, l' := s.rcv.rxQ, s.rcv.staleQ, Step(s, DatArrives(d)).rcv.staleQ;
            l' == (if d.seqNum < w.rdSeq && !d.noAck
                   then InsertOrd(l, Entry(d.seqNum, 1, RxPacket(d.(staleDat := true)))) else l)
    ensures var w, err := s.rcv.rxQ, OnRxDat(s.rcv, d).1;
            && (err == TryAgain <==> w.Has(d.seqNum))
            && (err == RangeErr <==> d.seqNum >= w.rdSeq + w.Count())
            && (err == CqErr <==> d.seqNum < w.rdSeq && d.noAck)
            && (err == NoError <==> (w.InRange(d.seqNum) && !w.Has(d.seqNum)) || (d.seqNum < w.rdSeq && !d.noAck))
  {
    hide *;
    ReachableSafe(s);
    SafeParts(s);
    DatsHas(s.dats, s.sent, d);
    ArrivalIs(s, d);
  }

  lemma ArrivalIs(s: System, d: DatHdr)
    requires Queues(s) && WindowOk(s.rcv.rxQ, s.sent) && AckEdge(s.rcv.rxQ, s.rcv.seqAck) && DatOk(d, s.sent)
    ensures var w, w' := s.rcv.rxQ, Step(s, DatArrives(d)).rcv.rxQ;
            && (forall t | w.rdSeq <= t < w.wrSeq :: w.Has(t))
            && (forall t | w.Has(t) ::
                  t < |s.sent| && w.At(t).buff.dat.seqNum == t && w.At(t).buff.dat.payload == s.sent[t])
            && (!w.InRange(d.seqNum) || w.Has(d.seqNum) ==> w' == w)
            && (w.InRange(d.seqNum) ==> forall t :: w'.Has(t) <==> w.Has(t) || t == d.seqNum)
            && (forall t | w.Has(t) :: w'.At(t) == w.At(t))
            && (w.InRange(d.seqNum) && !w.Has(d.seqNum) ==>
                  w'.Has(d.seqNum) && w'.At(d.seqNum).buff == Packet(TxRdy, KindDat, d, Sack(0, 0, [])))
    ensures var w, l, l' := s.rcv.rxQ, s.rcv.staleQ, Step(s, DatArrives(d)).rcv.staleQ;
            l' == (if d.seqNum < w.rdSeq && !d.noAck
                   then InsertOrd(l, Entry(d.seqNum, 1, RxPacket(d.(staleDat := true)))) else l)
    ensures var w, err := s.rcv.rxQ, OnRxDat(s.rcv, d).1;
            && (err == TryAgain <==> w.Has(d.seqNum))
            && (err == RangeErr <==> d.seqNum >= w.rdSeq + w.Count())
            && (err == CqErr <==> d.seqNum < w.rdSeq && d.noAck)
            && (err == NoError <==> (w.InRange(d.seqNum) && !w.Has(d.seqNum)) || (d.seqNum < w.rdSeq && !d.noAck))
  {
    hide OnRxDat, AckEdge, Commit;
    RxDatFacts(s.rcv, d);
  }

  /** In every reachable state the scan of generateAcks meets no number outside the window:
      the only error a call reports is a full queue of outgoing acknowledgements.  It leaves
      the payloads alone, and the packets marked as acknowledged stay a prefix of the window. */
  lemma AcksStayInWindow(s: System, maxAckPackets: int, maxSlots: nat, behind: SackField)
    requires Reachable(s) && Queues(s)
    ensures var (r, err, log) := GenerateAcks(s.rcv, maxAckPackets, maxSlots, behind);
            && err in {NoError, TryAgain}
            && AckedPrefix(r.rxQ) && AckEdge(r.rxQ, r.seqAck)
            && SameWindow(s.rcv.rxQ, r.rxQ)
  {
    hide *;
    ReachableSafe(s);
    SafeParts(s);
    GenerateAcksKeeps(s.rcv, maxAckPackets, maxSlots, behind);
    WindowPrefix(GenerateAcks(s.rcv, maxAckPackets, maxSlots, behind).0.rxQ);
  }

  lemma WindowPrefix(w: PacketQ)
    requires RxWindow(w)
    ensures AckedPrefix(w)
  {
  }

  /** Any call over the stale list, in every reachable state and of any length: it never finds
      the list out of order, it removes only entries whose numbers it has dealt with, at least
      one in three iterations and one in two if no full buffer goes out, or empties the list.
      It succeeds exactly when there is room for the SACKs it needs.  Of a call that writes
      behind its field buffer this takes the write to be harmless. */
  lemma StaleAcksKeepUp(s: System, packets: int, slots: nat, behind: SackField) returns (k: nat, m: nat)
    requires Reachable(s) && Queues(s) && packets > 0
    ensures var l := s.rcv.staleQ;
            var (r, err, log) := GenerateStaleAcks(s.rcv, packets, slots, behind);
            && err in {NoError, TryAgain}
            && (err == NoError <==> Room(s.rcv.txQ) >= StaleNeeded(l, slots))
            && k <= m <= k + 1 && m <= |l| && r == s.rcv.(staleQ := l[k..], txQ := r.txQ)
            && (err == NoError ==> k == |l| || slots <= 3 * k + 1)
            && (err == NoError ==> k == |l| || Flushes(l, slots) || slots <= 2 * k + 1)
            && (Spread(l) ==> (Flatten(Accepted(log)) == Distinct(l, m) <==> !Flushes(l, slots) && err == NoError))
  {
    hide *;
    ReachableSafe(s);
    SafeParts(s);
    StaleParts(s.rcv.staleQ, s.rcv.rxQ.rdSeq);
    var l, hi := s.rcv.staleQ, s.rcv.rxQ.rdSeq;
    StaleRoom(s.rcv, packets, slots, behind, hi);
    if l == [] || slots == 0 {
      k, m := 0, 0;
      EmptyCall(s.rcv, packets, slots, behind);
      NoCall(l, slots);
    } else {
      var i, again;
      if Spread(l) {
        i, k, m, again := StaleExact(s.rcv, packets, slots, behind, hi);
      } else {
        i, k, m, again := StaleCall(s.rcv, packets, slots, behind, hi);
      }
      var (r, err, log) := GenerateStaleAcks(s.rcv, packets, slots, behind);
      StaleDoneIs(s.rcv, r, err, log, i, k, m, again, slots, hi);
      if err == NoError { EntriesGo(l, i, k, m, again, slots); }
    }
  }

  lemma NoCall(l: StaleQ, slots: nat)
    requires l == [] || slots == 0
    ensures !Flushes(l, slots) && Distinct(l, 0) == [] && Flatten(Accepted([])) == [] && l[0..] == l
  {
    FlattenNone();
  }

  /** Which of them name only packets that the user has had: those that do not overstep, or have
      no room for the SACK that would.  A call that oversteps has written behind its buffer
      before; this takes the write to be harmless. */
  lemma StaleAcksAreSound(s: System, packets: int, slots: nat, behind: SackField)
    requires Reachable(s) && Queues(s) && packets > 0 && Spread(s.rcv.staleQ)
    ensures var l, rd := s.rcv.staleQ, s.rcv.rxQ.rdSeq;
            LogBelow(GenerateStaleAcks(s.rcv, packets, slots, behind).2, rd)
            <==> !Oversteps(l, slots, rd) || Room(s.rcv.txQ) < StaleNeeded(l, slots)
  {
    hide *;
    ReachableSafe(s);
    SafeParts(s);
    StaleParts(s.rcv.staleQ, s.rcv.rxQ.rdSeq);
    StaleSoundExact(s.rcv, packets, slots, behind, s.rcv.rxQ.rdSeq);
  }

  /** Which of them write behind their field buffer, in every reachable state: exactly those that
      open a thirteenth field.  All others need room for one SACK at most, name exactly the
      numbers they deal with, and are sound. */
  lemma StaleAcksStay(s: System, packets: int, slots: nat)
    requires Reachable(s) && Queues(s) && packets > 0
    ensures (forall behind :: BehindAfter(s.rcv, packets, slots, behind) == behind) <==> !Overruns(s.rcv.staleQ, slots)
    ensures !Overruns(s.rcv.staleQ, slots) ==>
              && StaleNeeded(s.rcv.staleQ, slots) <= 1 && !Flushes(s.rcv.staleQ, slots)
              && forall behind :: LogBelow(GenerateStaleAcks(s.rcv, packets, slots, behind).2, s.rcv.rxQ.rdSeq)
  {
    hide *;
    ReachableSafe(s);
    SafeParts(s);
    var l, rd := s.rcv.staleQ, s.rcv.rxQ.rdSeq;
    StaleParts(l, rd);
    OverrunsExact(s.rcv, packets, slots, rd);
    FirstOverruns(l, slots, rd);
    if !Overruns(l, slots) {
      StaysNeedsOne(l, slots);
      forall behind ensures LogBelow(GenerateStaleAcks(s.rcv, packets, slots, behind).2, rd) {
        var _ := StaleSound(s.rcv, packets, slots, behind, rd);
      }
    }
  }
}
