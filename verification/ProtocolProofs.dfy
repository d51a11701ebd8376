/** What every step of the protocol keeps, and what follows for whole runs. */
module ProtocolProofs {
  import opened Basics
  import opened RingWindow
  import opened Packets
  import opened LinkedList
  import opened Sender
  import opened UserTx
  import opened Receiver
  import opened AckProofs
  import opened RecvProofs
  import opened Stale
  import opened StaleEnds
  import opened StaleCalls
  import opened Acks
  import opened Protocol

  /** The sender: the slot of each queued packet is that of its number, and the packet
      carries what the user sent under that number. */
  ghost predicate SenderOk(w: PacketQ, seqSnd: int, sent: seq<Bytes>) {
    && Identity(w) && AllBuffs(w, Clean)
    && seqSnd == w.wrSeq == |sent|
    && forall t | w.Has(t) :: w.At(t).buff.dat.payload == sent[t]
  }

  // A data packet in flight.
  ghost predicate DatOk(d: DatHdr, sent: seq<Bytes>) {
    0 <= d.seqNum < |sent| && Fresh(d) && d.payload == sent[d.seqNum]
  }

  ghost predicate DatsOk(dats: set<DatHdr>, sent: seq<Bytes>) {
    forall d | d in dats :: DatOk(d, sent)
  }

  // The receive window holds what was sent, each payload under its own number.
  ghost predicate WindowOk(w: PacketQ, sent: seq<Bytes>) {
    && RxWindow(w) && w.wrSeq <= |sent|
    && forall t | w.Has(t) :: t < |sent| && w.At(t).buff.dat.payload == sent[t]
  }

  // The stale list holds packets the user has had.
  ghost predicate StaleOk(l: StaleQ, rd: int) {
    Sorted(l) && forall j | 0 <= j < |l| :: 0 <= l[j].seqNum < rd
  }

  // Nothing queued or in flight acknowledges a packet from hi on.
  ghost predicate AcksOk(w: PacketQ, acks: set<Sack>, hi: int) {
    && w.Inv()
    && (forall a | a in acks :: SackBelow(a, hi))
    && (forall t | w.Has(t) :: w.At(t).buff.kind == KindAck && SackBelow(w.At(t).buff.sack, hi))
  }

  /** What the user has been handed: the payloads that were sent, in order, none left out and
      none twice, each cut to the size of the buffer it was read into. */
  ghost predicate UserOk(delivered: seq<Bytes>, asked: seq<nat>, sent: seq<Bytes>, rd: int) {
    && |delivered| == |asked| == rd <= |sent|
    && forall i | 0 <= i < rd :: delivered[i] == Take(sent[i], asked[i])
  }

  /** No packet is lost: each is still queued at the sender, or the transmitter gave it up, or
      it has arrived and is covered by the receiver's write edge. */
  ghost predicate NoLoss(w: PacketQ, freed: set<int>, total: int, hi: int) {
    forall t | 0 <= t < total :: w.Has(t) || t in freed || t < hi
  }

  ghost predicate Safe(s: System) {
    && SenderOk(s.txQ, s.seqSnd, s.sent)
    && DatsOk(s.dats, s.sent)
    && WindowOk(s.rcv.rxQ, s.sent) && AckEdge(s.rcv.rxQ, s.rcv.seqAck)
    && StaleOk(s.rcv.staleQ, s.rcv.rxQ.rdSeq)
    && AcksOk(s.rcv.txQ, s.acks, s.rcv.rxQ.wrSeq)
    && UserOk(s.delivered, s.asked, s.sent, s.rcv.rxQ.rdSeq)
    && NoLoss(s.txQ, s.freed, |s.sent|, s.rcv.rxQ.wrSeq)
  }

  lemma SafeQueues(s: System)
    requires Safe(s)
    ensures Queues(s)
  {
  }

  lemma StartSafe(txSize: int, txCount: nat, rxSize: int, rxCount: nat, ackSize: int, ackCount: nat)
    requires txCount > 0 && rxCount > 0 && ackCount > 0
    ensures Safe(Start(txSize, txCount, rxSize, rxCount, ackSize, ackCount))
  {
  }

  // ---- Sending user data ----

  lemma SendKeepsSender(w: PacketQ, w': PacketQ, sent: seq<Bytes>, payload: Bytes, noAck: bool)
    requires SenderOk(w, w.wrSeq, sent) && Appends(w, w', payload, noAck)
    ensures SenderOk(w', w'.wrSeq, sent + Copies(payload, w'.wrSeq - w.wrSeq))
  {
    hide AllBuffs, Identity;
    var more := sent + Copies(payload, w'.wrSeq - w.wrSeq);
    forall t | w'.Has(t) ensures 0 <= t < |more| && w'.At(t).buff.dat.payload == more[t] {
      if w.Has(t) { SenderHas(w, sent, t); }
    }
  }

  lemma SenderHas(w: PacketQ, sent: seq<Bytes>, t: int)
    requires SenderOk(w, w.wrSeq, sent) && w.Has(t)
    ensures 0 <= t < |sent| && w.At(t).buff.dat.payload == sent[t]
  {
  }

  // More payloads at the end change nothing that is said about the earlier ones.
  lemma SentGrows(s: System, more: seq<Bytes>)
    requires DatsOk(s.dats, s.sent) && WindowOk(s.rcv.rxQ, s.sent) && UserOk(s.delivered, s.asked, s.sent, s.rcv.rxQ.rdSeq)
    requires s.sent <= more
    ensures DatsOk(s.dats, more) && WindowOk(s.rcv.rxQ, more) && UserOk(s.delivered, s.asked, more, s.rcv.rxQ.rdSeq)
  {
  }

  lemma UserSendsSafe(s: System, e: Event)
    requires Safe(s) && Queues(s) && e.UserSends?
    ensures Safe(Step(s, e))
  {
    hide *;
    SafeParts(s);
    var payload := if e.datSpace < 1 then [] else Take(e.data, e.datSpace);
    QueuedBy(s.txQ, s.sent, e.data, e.datSpace, e.noAck, payload);
    var r := Send(s.txQ, s.seqSnd, e.data, e.datSpace, e.noAck, 0, []);
    SendKeepsSender(s.txQ, r.w, s.sent, payload, e.noAck);
    SentGrows(s, s.sent + r.queued);
    NoLossGrows(s.txQ, r.w, s.freed, |s.sent|, s.rcv.rxQ.wrSeq, payload, e.noAck);
    UserSendsIs(s, e);
    SafeWhole(Step(s, e));
  }

  // What a call queues, and what that adds to the history.
  lemma QueuedBy(w: PacketQ, sent: seq<Bytes>, data: Bytes, datSpace: int, noAck: bool, payload: Bytes)
    requires SenderOk(w, w.wrSeq, sent) && payload == if datSpace < 1 then [] else Take(data, datSpace)
    ensures w.Inv() && w.wrSeq == |sent|
    ensures var r := Send(w, w.wrSeq, data, datSpace, noAck, 0, []);
            && Appends(w, r.w, payload, noAck) && r.seqSnd == r.w.wrSeq >= w.wrSeq
            && r.queued == Copies(payload, r.w.wrSeq - w.wrSeq) && |sent + r.queued| == r.w.wrSeq
  {
    SendFacts(w, data, datSpace, noAck, 0, []);
    var r := Send(w, w.wrSeq, data, datSpace, noAck, 0, []);
    assert [] + Copies(payload, r.w.wrSeq - w.wrSeq) == Copies(payload, r.w.wrSeq - w.wrSeq);
    hide Send, Appends, AllBuffs, Identity;
  }

  lemma UserSendsIs(s: System, e: Event)
    requires Queues(s) && e.UserSends?
    ensures s.txQ.Inv() && s.rcv.rxQ.Inv() && s.rcv.txQ.Inv()
    ensures var r := Send(s.txQ, s.seqSnd, e.data, e.datSpace, e.noAck, 0, []);
            Step(s, e) == s.(txQ := r.w, seqSnd := r.seqSnd, sent := s.sent + r.queued)
  {
    hide Send;
  }

  lemma NoLossGrows(w: PacketQ, w': PacketQ, freed: set<int>, total: int, hi: int, payload: Bytes, noAck: bool)
    requires NoLoss(w, freed, total, hi) && Appends(w, w', payload, noAck) && w.wrSeq == total
    ensures NoLoss(w', freed, w'.wrSeq, hi)
  {
    hide AllBuffs, Identity;
  }

  // ---- Transmission control and the transmitter ----

  lemma RemarkHas(w: PacketQ, mark: int -> TxState)
    ensures forall t :: Remark(w, mark).Has(t) <==> w.Has(t)
    ensures forall t | w.Has(t) :: Remark(w, mark).At(t) == w.At(t).(buff := w.At(t).buff.(txState := mark(t)))
  {
    hide Remark;
    var r := Remark(w, mark);
    forall t ensures r.Has(t) <==> w.Has(t) {
      if w.InRange(t) { assert r.At(t).valid == w.At(t).valid; }
    }
  }

  lemma RemarkBuffs(w: PacketQ, mark: int -> TxState)
    requires AllBuffs(w, Clean)
    ensures AllBuffs(Remark(w, mark), Clean)
  {
    var r := Remark(w, mark);
    forall i | 0 <= i < |r.cells| ensures Clean(r.cells[i].buff) {
      assert Clean(w.cells[i].buff);
    }
  }

  lemma RemarkSender(w: PacketQ, mark: int -> TxState, sent: seq<Bytes>)
    requires SenderOk(w, w.wrSeq, sent)
    ensures SenderOk(Remark(w, mark), w.wrSeq, sent)
  {
    RemarkHas(w, mark);
    RemarkBuffs(w, mark);
    hide Remark, AllBuffs;
    forall t | Remark(w, mark).Has(t) ensures w.Has(t) {}
  }

  lemma MarkDatsSafe(s: System, e: Event)
    requires Safe(s) && Queues(s) && e.MarkDats?
    ensures Safe(Step(s, e))
  {
    RemarkSender(s.txQ, e.mark, s.sent);
    RemarkHas(s.txQ, e.mark);
    hide SenderOk, DatsOk, WindowOk, UserOk, AcksOk, Remark;
  }

  lemma KeepsSender(w: PacketQ, w': PacketQ, i: int, j: int, sent: seq<Bytes>)
    requires SenderOk(w, w.wrSeq, sent) && Keeps(w, w', i, j) && AllBuffs(w', Clean)
    ensures SenderOk(w', w.wrSeq, sent)
  {
    hide AllBuffs, Window.Inv;
  }

  // A packet the sender holds is fit to be sent.
  lemma QueuedDat(w: PacketQ, sent: seq<Bytes>, t: int)
    requires SenderOk(w, w.wrSeq, sent) && w.Has(t)
    ensures DatOk(w.At(t).buff.dat, sent)
  {
    assert Clean(w.cells[t - w.rdSeq].buff);
  }

  lemma SentDats(w: PacketQ, sent: seq<Bytes>, i: int, j: int, out: seq<Sent>)
    requires SenderOk(w, w.wrSeq, sent) && Sends(w, i, j, out)
    ensures DatsOk(DatsOf(out), sent)
  {
    hide SenderOk, DatOk;
    forall o | o in out ensures DatOk(o.pkt.dat, sent) {
      var k :| 0 <= k < |out| && out[k] == o;
      QueuedDat(w, sent, out[k].slot);
    }
  }

  lemma GoneNoLoss(w: PacketQ, w': PacketQ, freed: set<int>, total: int, hi: int)
    requires NoLoss(w, freed, total, hi)
    ensures NoLoss(w', freed + Gone(w, w'), total, hi)
  {
  }

  lemma SendDatsSafe(s: System, e: Event)
    requires Safe(s) && Queues(s) && e.SendDats?
    ensures Safe(Step(s, e))
  {
    hide *;
    SafeParts(s);
    var w := s.txQ;
    var r := NetTx(w, w.rdSeq, e.maxDatSlots, e.datHw, []);
    NetTxKeeps(w, w.rdSeq, e.maxDatSlots, e.datHw, []);
    NetTxSends(w, w.rdSeq, e.maxDatSlots, e.datHw, []);
    NetTxBuffs(w, w.rdSeq, e.maxDatSlots, e.datHw, []);
    var j := Max(w.rdSeq, w.wrSeq + 1);
    KeepsSender(w, r.w, w.rdSeq, j, s.sent);
    assert r.out[0..] == r.out;
    SentDats(w, s.sent, w.rdSeq, j, r.out);
    DatsUnion(s.dats, DatsOf(r.out), s.sent);
    GoneNoLoss(w, r.w, s.freed, |s.sent|, s.rcv.rxQ.wrSeq);
    SendDatsIs(s, e);
    SafeWhole(Step(s, e));
  }

  lemma SendDatsIs(s: System, e: Event)
    requires Queues(s) && e.SendDats?
    ensures s.txQ.Inv() && s.rcv.rxQ.Inv() && s.rcv.txQ.Inv()
    ensures var r := NetTx(s.txQ, s.txQ.rdSeq, e.maxDatSlots, e.datHw, []);
            Step(s, e) == s.(txQ := r.w, dats := s.dats + DatsOf(r.out), freed := s.freed + Gone(s.txQ, r.w))
  {
    hide NetTx;
  }

  lemma DatsUnion(a: set<DatHdr>, b: set<DatHdr>, sent: seq<Bytes>)
    requires DatsOk(a, sent) && DatsOk(b, sent)
    ensures DatsOk(a + b, sent)
  {
  }

  lemma SafeParts(s: System)
    requires Safe(s)
    ensures s.txQ.Inv() && s.rcv.rxQ.Inv() && s.rcv.txQ.Inv()
    ensures s.seqSnd == s.txQ.wrSeq && SenderOk(s.txQ, s.txQ.wrSeq, s.sent) && AllBuffs(s.txQ, Clean) && Identity(s.txQ)
    ensures DatsOk(s.dats, s.sent)
    ensures WindowOk(s.rcv.rxQ, s.sent) && RxWindow(s.rcv.rxQ) && AckEdge(s.rcv.rxQ, s.rcv.seqAck)
    ensures StaleOk(s.rcv.staleQ, s.rcv.rxQ.rdSeq)
    ensures AcksOk(s.rcv.txQ, s.acks, s.rcv.rxQ.wrSeq)
    ensures UserOk(s.delivered, s.asked, s.sent, s.rcv.rxQ.rdSeq)
    ensures NoLoss(s.txQ, s.freed, |s.sent|, s.rcv.rxQ.wrSeq)
    ensures s.rcv.rxQ.rdSeq <= s.rcv.rxQ.wrSeq
  {
  }

  lemma SafeWhole(s: System)
    requires SenderOk(s.txQ, s.seqSnd, s.sent) && DatsOk(s.dats, s.sent)
    requires WindowOk(s.rcv.rxQ, s.sent) && AckEdge(s.rcv.rxQ, s.rcv.seqAck)
    requires StaleOk(s.rcv.staleQ, s.rcv.rxQ.rdSeq)
    requires AcksOk(s.rcv.txQ, s.acks, s.rcv.rxQ.wrSeq)
    requires UserOk(s.delivered, s.asked, s.sent, s.rcv.rxQ.rdSeq)
    requires NoLoss(s.txQ, s.freed, |s.sent|, s.rcv.rxQ.wrSeq)
    ensures Safe(s)
  {
  }

  // ---- Arrivals ----

  lemma SackMono(a: Sack, hi: int, hi': int)
    requires SackBelow(a, hi) && hi <= hi'
    ensures SackBelow(a, hi')
  {
  }

  lemma AcksMono(w: PacketQ, acks: set<Sack>, hi: int, hi': int)
    requires AcksOk(w, acks, hi) && hi <= hi'
    ensures AcksOk(w, acks, hi')
  {
    hide SackBelow;
    forall a | a in acks ensures SackBelow(a, hi') { SackMono(a, hi, hi'); }
    forall t | w.Has(t) ensures SackBelow(w.At(t).buff.sack, hi') { SackMono(w.At(t).buff.sack, hi, hi'); }
  }

  lemma ArrivalWindow(r: Receiver, d: DatHdr, sent: seq<Bytes>)
    requires WindowOk(r.rxQ, sent) && AckEdge(r.rxQ, r.seqAck) && DatOk(d, sent)
    ensures r.rxQ.Inv() && WindowOk(OnRxDat(r, d).0.rxQ, sent)
  {
    RxDatFacts(r, d);
    var w := OnRxDat(r, d).0.rxQ;
    hide OnRxDat;
    forall t | w.Has(t) ensures t < |sent| && w.At(t).buff.dat.payload == sent[t] {
      if t != d.seqNum || r.rxQ.Has(t) { assert r.rxQ.Has(t); }
    }
    assert w.wrSeq > r.rxQ.wrSeq ==> w.Has(w.wrSeq - 1);
  }

  lemma ArrivalStale(l: StaleQ, rd: int, e: Entry<Packet>)
    requires StaleOk(l, rd) && 0 <= e.seqNum < rd
    ensures StaleOk(InsertOrd(l, e), rd)
  {
    InsertOrdSorted(l, e);
  }

  lemma DatArrivesSafe(s: System, e: Event)
    requires Safe(s) && Queues(s) && e.DatArrives? && e.d in s.dats
    ensures Safe(Step(s, e))
  {
    hide *;
    SafeParts(s);
    var d := e.d;
    DatsHas(s.dats, s.sent, d);
    ArrivalWindow(s.rcv, d, s.sent);
    RxDatFacts(s.rcv, d);
    var r := OnRxDat(s.rcv, d).0;
    if d.seqNum < s.rcv.rxQ.rdSeq && !d.noAck {
      ArrivalStale(s.rcv.staleQ, s.rcv.rxQ.rdSeq, Entry(d.seqNum, 1, RxPacket(d.(staleDat := true))));
    }
    AcksMono(s.rcv.txQ, s.acks, s.rcv.rxQ.wrSeq, r.rxQ.wrSeq);
    NoLossMono(s.txQ, s.freed, |s.sent|, s.rcv.rxQ.wrSeq, r.rxQ.wrSeq);
    DatArrivesIs(s, e);
    SafeWhole(Step(s, e));
  }

  lemma DatArrivesIs(s: System, e: Event)
    requires Queues(s) && e.DatArrives?
    ensures s.txQ.Inv() && s.rcv.rxQ.Inv() && s.rcv.txQ.Inv()
    ensures Step(s, e) == s.(rcv := OnRxDat(s.rcv, e.d).0)
  {
    hide OnRxDat;
  }

  lemma DatsHas(dats: set<DatHdr>, sent: seq<Bytes>, d: DatHdr)
    requires DatsOk(dats, sent) && d in dats
    ensures DatOk(d, sent) && Fresh(d) && 0 <= d.seqNum
  {
  }

  lemma NoLossMono(w: PacketQ, freed: set<int>, total: int, hi: int, hi': int)
    requires NoLoss(w, freed, total, hi) && hi <= hi'
    ensures NoLoss(w, freed, total, hi')
  {
  }

  lemma AckArrivesSafe(s: System, e: Event)
    requires Safe(s) && Queues(s) && e.AckArrives? && e.a in s.acks
    ensures Safe(Step(s, e))
  {
    hide *;
    SafeParts(s);
    var acks := Expand(e.a.base, e.a.fields);
    AckAllExact(s.txQ, acks);
    AckAllBuffs(s.txQ, acks, Clean);
    AckedSender(s.txQ, acks, s.sent);
    AcksHave(s.rcv.txQ, s.acks, s.rcv.rxQ.wrSeq, e.a);
    AckedNoLoss(s.txQ, acks, s.freed, |s.sent|, s.rcv.rxQ.wrSeq);
    AckArrivesIs(s, e);
    SafeWhole(Step(s, e));
  }

  lemma AckArrivesIs(s: System, e: Event)
    requires Queues(s) && e.AckArrives?
    ensures s.txQ.Inv() && s.rcv.rxQ.Inv() && s.rcv.txQ.Inv()
    ensures Step(s, e) == if Accepts(e.a) then s.(txQ := AckAll(s.txQ, Expand(e.a.base, e.a.fields))) else s
  {
    hide AckAll, Expand;
  }

  lemma AcksHave(w: PacketQ, acks: set<Sack>, hi: int, a: Sack)
    requires AcksOk(w, acks, hi) && a in acks
    ensures forall t | t in Expand(a.base, a.fields) :: 0 <= t < hi
  {
  }

  lemma AckedSender(w: PacketQ, acks: seq<int>, sent: seq<Bytes>)
    requires SenderOk(w, w.wrSeq, sent) && w.Inv() && AllBuffs(AckAll(w, acks), Clean)
    requires var r := AckAll(w, acks);
             && Identity(r) && r.wrSeq == w.wrSeq
             && (forall t :: r.Has(t) <==> w.Has(t) && t !in acks)
             && (forall t | r.Has(t) :: r.At(t) == w.At(t))
    ensures SenderOk(AckAll(w, acks), w.wrSeq, sent)
  {
    hide AckAll, AllBuffs, Window.Inv;
  }

  /** Only an acknowledgement of t frees packet t for good, and whatever is acknowledged
      lies below the receiver's write edge. */
  lemma AckedNoLoss(w: PacketQ, acks: seq<int>, freed: set<int>, total: int, hi: int)
    requires NoLoss(w, freed, total, hi) && w.Inv()
    requires forall t | t in acks :: 0 <= t < hi
    requires forall t :: AckAll(w, acks).Has(t) <==> w.Has(t) && t !in acks
    ensures NoLoss(AckAll(w, acks), freed, total, hi)
  {
    hide AckAll, Window.Inv;
  }

  // ---- Acknowledging ----

  lemma SameWindowOk(w: PacketQ, w': PacketQ, sent: seq<Bytes>)
    requires WindowOk(w, sent) && SameWindow(w, w') && RxWindow(w')
    ensures WindowOk(w', sent)
  {
    forall t | w'.Has(t) ensures w.Has(t) && w'.At(t).buff.dat.payload == w.At(t).buff.dat.payload {
      assert w.InRange(t);
    }
  }

  lemma GrewAcks(w: PacketQ, w': PacketQ, acks: set<Sack>, log: seq<Sack>, hi: int, hi': int)
    requires AcksOk(w, acks, hi) && TxGrew(w, w', log) && LogBelow(log, hi') && hi' <= hi
    ensures AcksOk(w', acks, hi)
  {
    GrewHas(w, w', log);
    hide TxGrew;
    hide SackBelow;
    forall t | w'.Has(t) ensures w'.At(t).buff.kind == KindAck && SackBelow(w'.At(t).buff.sack, hi) {
      if !(w.Has(t) && w'.At(t) == w.At(t)) { SackMono(w'.At(t).buff.sack, hi', hi); }
    }
  }

  lemma MakeAcksSafe(s: System, e: Event)
    requires Safe(s) && Queues(s) && e.MakeAcks?
    requires s.rcv.rxQ.Inv() && s.rcv.txQ.Inv() && StaysInBuffer(s.rcv, e.maxAckPackets, e.maxAckSlots, e.behind)
    ensures Safe(Step(s, e))
  {
    hide *;
    SafeParts(s);
    GenerateAcksKeeps(s.rcv, e.maxAckPackets, e.maxAckSlots, e.behind);
    var (r, err, log) := GenerateAcks(s.rcv, e.maxAckPackets, e.maxAckSlots, e.behind);
    SameWindowOk(s.rcv.rxQ, r.rxQ, s.sent);
    SameEdges(s.rcv.rxQ, r.rxQ);
    GrewAcks(s.rcv.txQ, r.txQ, s.acks, log, s.rcv.rxQ.wrSeq, s.rcv.rxQ.wrSeq);
    MakeAcksIs(s, e);
    SafeWhole(Step(s, e));
  }

  lemma SameEdges(w: PacketQ, w': PacketQ)
    requires SameWindow(w, w')
    ensures w'.rdSeq == w.rdSeq && w'.wrSeq == w.wrSeq
  {
  }

  lemma MakeAcksIs(s: System, e: Event)
    requires Queues(s) && e.MakeAcks?
    ensures s.txQ.Inv() && s.rcv.rxQ.Inv() && s.rcv.txQ.Inv()
    ensures Step(s, e) == s.(rcv := GenerateAcks(s.rcv, e.maxAckPackets, e.maxAckSlots, e.behind).0)
  {
    hide GenerateAcks;
  }

  lemma StaleTail(l: StaleQ, rd: int, k: nat)
    requires StaleOk(l, rd) && k <= |l|
    ensures StaleOk(l[k..], rd)
  {
  }

  lemma MakeStaleAcksSafe(s: System, e: Event)
    requires Safe(s) && Queues(s) && e.MakeStaleAcks?
    requires e.maxStalePackets <= 0 || !Overruns(s.rcv.staleQ, e.maxStaleSlots)
    ensures Safe(Step(s, e))
  {
    hide *;
    SafeParts(s);
    StaleParts(s.rcv.staleQ, s.rcv.rxQ.rdSeq);
    FirstOverruns(s.rcv.staleQ, e.maxStaleSlots, s.rcv.rxQ.wrSeq);
    var k := StaleSound(s.rcv, e.maxStalePackets, e.maxStaleSlots, e.behindStale, s.rcv.rxQ.wrSeq);
    var (r, err, log) := GenerateStaleAcks(s.rcv, e.maxStalePackets, e.maxStaleSlots, e.behindStale);
    StaleTail(s.rcv.staleQ, s.rcv.rxQ.rdSeq, k);
    GrewAcks(s.rcv.txQ, r.txQ, s.acks, log, s.rcv.rxQ.wrSeq, s.rcv.rxQ.wrSeq);
    MakeStaleAcksIs(s, e);
    SafeWhole(Step(s, e));
  }

  lemma StaleParts(l: StaleQ, rd: int)
    requires StaleOk(l, rd)
    ensures Sorted(l) && forall j | 0 <= j < |l| :: 0 <= l[j].seqNum < rd
  {
  }

  lemma MakeStaleAcksIs(s: System, e: Event)
    requires Queues(s) && e.MakeStaleAcks?
    ensures s.txQ.Inv() && s.rcv.rxQ.Inv() && s.rcv.txQ.Inv()
    ensures Step(s, e) == s.(rcv := GenerateStaleAcks(s.rcv, e.maxStalePackets, e.maxStaleSlots, e.behindStale).0)
  {
    hide GenerateStaleAcks;
  }

  lemma RemarkAcks(w: PacketQ, mark: int -> TxState, acks: set<Sack>, hi: int)
    requires AcksOk(w, acks, hi)
    ensures AcksOk(Remark(w, mark), acks, hi)
  {
    RemarkHas(w, mark);
    hide Remark, SackBelow;
  }

  lemma MarkAcksSafe(s: System, e: Event)
    requires Safe(s) && Queues(s) && e.MarkAcks?
    ensures Safe(Step(s, e))
  {
    RemarkAcks(s.rcv.txQ, e.markAck, s.acks, s.rcv.rxQ.wrSeq);
    hide SenderOk, DatsOk, WindowOk, UserOk, AcksOk, Remark, NoLoss;
  }

  lemma KeepsAcks(w: PacketQ, w': PacketQ, i: int, j: int, acks: set<Sack>, out: seq<Sent>, hi: int)
    requires AcksOk(w, acks, hi) && Keeps(w, w', i, j) && Sends(w, i, j, out)
    ensures AcksOk(w', acks + SacksOf(out), hi)
  {
    hide SackBelow, Window.Inv;
    forall o | o in out ensures SackBelow(o.pkt.sack, hi) {
      var k :| 0 <= k < |out| && out[k] == o;
      assert w.Has(out[k].slot);
    }
  }

  lemma SendAcksSafe(s: System, e: Event)
    requires Safe(s) && Queues(s) && e.SendAcks?
    ensures Safe(Step(s, e))
  {
    hide *;
    SafeParts(s);
    var w := s.rcv.txQ;
    var r := NetTx(w, w.rdSeq, e.maxSackSlots, e.sackHw, []);
    NetTxKeeps(w, w.rdSeq, e.maxSackSlots, e.sackHw, []);
    NetTxSends(w, w.rdSeq, e.maxSackSlots, e.sackHw, []);
    assert r.out[0..] == r.out;
    KeepsAcks(w, r.w, w.rdSeq, Max(w.rdSeq, w.wrSeq + 1), s.acks, r.out, s.rcv.rxQ.wrSeq);
    SendAcksIs(s, e);
    SafeWhole(Step(s, e));
  }

  lemma SendAcksIs(s: System, e: Event)
    requires Queues(s) && e.SendAcks?
    ensures s.txQ.Inv() && s.rcv.rxQ.Inv() && s.rcv.txQ.Inv()
    ensures var r := NetTx(s.rcv.txQ, s.rcv.txQ.rdSeq, e.maxSackSlots, e.sackHw, []);
            Step(s, e) == s.(rcv := s.rcv.(txQ := r.w), acks := s.acks + SacksOf(r.out))
  {
    hide NetTx;
  }

  // ---- Reading ----

  lemma ReadWindow(w: PacketQ, w': PacketQ, sent: seq<Bytes>)
    requires WindowOk(w, sent) && RxWindow(w') && w'.wrSeq == w.wrSeq
    requires forall t | w'.Has(t) :: w.Has(t) && w'.At(t) == w.At(t)
    ensures WindowOk(w', sent)
  {
    hide RxWindow;
  }

  lemma ReadHanded(w: PacketQ, delivered: seq<Bytes>, asked: seq<nat>, sent: seq<Bytes>, len: nat)
    requires WindowOk(w, sent) && UserOk(delivered, asked, sent, w.rdSeq) && w.rdSeq < w.wrSeq
    ensures w.InRange(w.rdSeq)
    ensures UserOk(delivered + [Take(w.At(w.rdSeq).buff.dat.payload, len)], asked + [len], sent, w.rdSeq + 1)
  {
    assert w.Has(w.rdSeq);
    hide RxWindow, Take;
  }

  lemma UserReadsSafe(s: System, e: Event)
    requires Safe(s) && Queues(s) && e.UserReads?
    ensures Safe(Step(s, e))
  {
    hide *;
    SafeParts(s);
    var w := s.rcv.rxQ;
    UserRxFacts(w, e.len);
    UserReadsIs(s, e);
    var (w', data, err) := UserRx(w, e.len);
    if data.Got? {
      ReadHas(w, s.sent);
      ReadWindow(w, w', s.sent);
      ReadEdge(w, w', s.rcv.seqAck);
      ReadHanded(w, s.delivered, s.asked, s.sent, e.len);
      StaleLater(s.rcv.staleQ, w.rdSeq);
      SafeWhole(Step(s, e));
    }
  }

  lemma ReadHas(w: PacketQ, sent: seq<Bytes>)
    requires WindowOk(w, sent)
    ensures w.rdSeq <= w.wrSeq && (w.rdSeq < w.wrSeq ==> w.InRange(w.rdSeq))
  {
  }

  lemma StaleLater(l: StaleQ, rd: int)
    requires StaleOk(l, rd)
    ensures StaleOk(l, rd + 1)
  {
  }

  lemma UserReadsIs(s: System, e: Event)
    requires Queues(s) && e.UserReads?
    ensures s.txQ.Inv() && s.rcv.rxQ.Inv() && s.rcv.txQ.Inv()
    ensures var (w, data, err) := UserRx(s.rcv.rxQ, e.len);
            Step(s, e) ==
            (if data.Got?
             then s.(rcv := s.rcv.(rxQ := w), delivered := s.delivered + [data.data], asked := s.asked + [e.len])
             else s.(rcv := s.rcv.(rxQ := w)))
  {
    hide UserRx;
  }

  // ---- Runs ----

  /** Whatever happens next, the system stays safe. */
  lemma StepSafe(s: System, e: Event)
    requires Safe(s) && Queues(s) && Enabled(s, e)
    ensures Safe(Step(s, e))
  {
    EnabledIs(s, e);
    hide Safe, Step, Enabled, StaysInBuffer, Overruns;
    match e {
      case UserSends(_, _, _) => UserSendsSafe(s, e);
      case MarkDats(_) => MarkDatsSafe(s, e);
      case SendDats(_, _) => SendDatsSafe(s, e);
      case DatArrives(_) => DatArrivesSafe(s, e);
      case MakeAcks(_, _, _) => MakeAcksSafe(s, e);
      case MakeStaleAcks(_, _, _) => MakeStaleAcksSafe(s, e);
      case MarkAcks(_) => MarkAcksSafe(s, e);
      case SendAcks(_, _) => SendAcksSafe(s, e);
      case AckArrives(_) => AckArrivesSafe(s, e);
      case UserReads(_) => UserReadsSafe(s, e);
    }
  }

  lemma EnabledIs(s: System, e: Event)
    requires Queues(s) && Enabled(s, e)
    ensures s.rcv.rxQ.Inv() && s.rcv.txQ.Inv()
    ensures e.DatArrives? ==> e.d in s.dats
    ensures e.AckArrives? ==> e.a in s.acks
    ensures e.MakeAcks? ==> StaysInBuffer(s.rcv, e.maxAckPackets, e.maxAckSlots, e.behind)
    ensures e.MakeStaleAcks? ==> e.maxStalePackets <= 0 || !Overruns(s.rcv.staleQ, e.maxStaleSlots)
  {
  }

  // The states of a run: each follows from the one before by an event enabled in it.
  ghost predicate Run(states: seq<System>, events: seq<Event>) {
    && |states| == |events| + 1
    && forall i | 0 <= i < |events| ::
         Queues(states[i]) && Enabled(states[i], events[i]) && states[i + 1] == Step(states[i], events[i])
  }

  lemma RunStep(states: seq<System>, events: seq<Event>, i: nat)
    requires Run(states, events) && i + 1 < |states|
    ensures i < |events| && Queues(states[i]) && Enabled(states[i], events[i])
    ensures states[i + 1] == Step(states[i], events[i])
  {
    hide Queues, Enabled, Step;
  }

  /** Every state of every run from fresh queues is safe. */
  lemma {:induction false} RunSafe(states: seq<System>, events: seq<Event>, i: nat)
    requires Run(states, events) && Safe(states[0]) && i < |states|
    ensures Safe(states[i])
  {
    hide *;
    if i > 0 {
      RunSafe(states, events, i - 1);
      RunStep(states, events, i - 1);
      StepSafe(states[i - 1], events[i - 1]);
    }
  }
}
