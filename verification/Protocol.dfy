/** One sender, one receiver and the network between them, as a state machine.  The network
    loses, repeats, delays and reorders packets at will; transmission control marks packets
    for sending or dropping as it likes. */
module Protocol {
  import opened Basics
  import opened RingWindow
  import opened Packets
  import opened Sender
  import opened UserTx
  import opened Receiver
  import opened Stale
  import opened StaleEnds
  import opened Acks

  datatype System = System(
    txQ: PacketQ, seqSnd: int,    // the sender
    rcv: Receiver,                // the receiver
    dats: set<DatHdr>,            // every data packet ever put on the wire
    acks: set<Sack>,              // every SACK ever put on the wire
    sent: seq<Bytes>,             // history: the payloads queued by the sender's user
    delivered: seq<Bytes>,        // history: what the receiver's user was handed
    asked: seq<nat>,              // history: the buffer sizes it was handed them with
    freed: set<int>)              // history: packets the transmitter freed without an acknowledgement

  // What may happen next, with every choice made by users, transmission control and network.
  datatype Event =
    | UserSends(data: Bytes, datSpace: int, noAck: bool)
    | MarkDats(mark: int -> TxState)
    | SendDats(maxDatSlots: nat, datHw: int -> bool)
    | DatArrives(d: DatHdr)
    | MakeAcks(maxAckPackets: int, maxAckSlots: nat, behind: SackField)
    | MakeStaleAcks(maxStalePackets: int, maxStaleSlots: nat, behindStale: SackField)
    | MarkAcks(markAck: int -> TxState)
    | SendAcks(maxSackSlots: nat, sackHw: int -> bool)
    | AckArrives(a: Sack)
    | UserReads(len: nat)

  // The three queues are well formed, which is all that the operations ask for.
  ghost predicate Queues(s: System) {
    s.txQ.Inv() && s.rcv.rxQ.Inv() && s.rcv.txQ.Inv()
  }

  // Transmission control rewrites the transmission state of the packets of a queue.
  function Remark(w: PacketQ, mark: int -> TxState): (r: PacketQ)
    ensures r.Count() == w.Count() && r.rdSeq == w.rdSeq && r.wrSeq == w.wrSeq && r.rdMax == w.rdMax
    ensures forall t | w.InRange(t) ::
              r.At(t) == if w.At(t).valid then w.At(t).(buff := w.At(t).buff.(txState := mark(t))) else w.At(t)
    ensures w.Inv() ==> r.Inv()
  {
    w.(cells := seq(|w.cells|, i requires 0 <= i < |w.cells| =>
         var c := w.cells[i];
         if c.valid then c.(buff := c.buff.(txState := mark(w.rdSeq + i))) else c))
  }

  // The numbers of the packets that were in w and are not in w'.
  function Gone(w: PacketQ, w': PacketQ): (r: set<int>)
    ensures forall t :: t in r <==> w.Has(t) && !w'.Has(t)
  {
    set t | w.rdSeq <= t < w.rdSeq + w.Count() && w.Has(t) && !w'.Has(t)
  }

  function DatsOf(out: seq<Sent>): set<DatHdr> { set o | o in out && o.pkt.kind == KindDat :: o.pkt.dat }

  function SacksOf(out: seq<Sent>): set<Sack> { set o | o in out && o.pkt.kind == KindAck :: o.pkt.sack }

  /** One step.  The network delivers only what was sent.  A call that handles a SACK ends, and
      a call that builds SACKs stays in its field buffer, as told from the state before it: it
      neither reads behind the buffer, as the memory there is, nor writes there. */
  ghost predicate Enabled(s: System, e: Event)
    requires Queues(s)
  {
    match e
    case DatArrives(d) => d in s.dats
    case AckArrives(a) => a in s.acks && (Accepts(a) ==> forall f | f in a.fields :: f.count < TWO_TO_THE_16)
    case MakeAcks(packets, slots, behind) => StaysInBuffer(s.rcv, packets, slots, behind)
    case MakeStaleAcks(packets, slots, _) => packets <= 0 || !Overruns(s.rcv.staleQ, slots)
    case _ => true
  }

  function Step(s: System, e: Event): System
    requires s.txQ.Inv() && s.rcv.rxQ.Inv() && s.rcv.txQ.Inv()
  {
    match e
    case UserSends(data, datSpace, noAck) =>
      var r := Send(s.txQ, s.seqSnd, data, datSpace, noAck, 0, []);
      s.(txQ := r.w, seqSnd := r.seqSnd, sent := s.sent + r.queued)
    case MarkDats(mark) => s.(txQ := Remark(s.txQ, mark))
    case SendDats(maxSlots, hw) =>
      var r := NetTx(s.txQ, s.txQ.rdSeq, maxSlots, hw, []);
      s.(txQ := r.w, dats := s.dats + DatsOf(r.out), freed := s.freed + Gone(s.txQ, r.w))
    case DatArrives(d) => s.(rcv := OnRxDat(s.rcv, d).0)
    case MakeAcks(packets, slots, behind) => s.(rcv := GenerateAcks(s.rcv, packets, slots, behind).0)
    case MakeStaleAcks(packets, slots, behind) => s.(rcv := GenerateStaleAcks(s.rcv, packets, slots, behind).0)
    case MarkAcks(mark) => s.(rcv := s.rcv.(txQ := Remark(s.rcv.txQ, mark)))
    case SendAcks(maxSlots, hw) =>
      var r := NetTx(s.rcv.txQ, s.rcv.txQ.rdSeq, maxSlots, hw, []);
      s.(rcv := s.rcv.(txQ := r.w), acks := s.acks + SacksOf(r.out))
    case AckArrives(a) => s.(txQ := OnRxAck(s.txQ, a).0)
    case UserReads(len) =>
      var (rxQ, data, err) := UserRx(s.rcv.rxQ, len);
      if data.Got?
      then s.(rcv := s.rcv.(rxQ := rxQ), delivered := s.delivered + [data.data], asked := s.asked + [len])
      else s.(rcv := s.rcv.(rxQ := rxQ))
  }

  // Fresh queues, of any sizes, and nothing in flight.
  function Start(txSize: int, txCount: nat, rxSize: int, rxCount: nat, ackSize: int, ackCount: nat): System {
    System(Empty(txSize, txCount, ZERO_PACKET), 0,
           Receiver(Empty(rxSize, rxCount, ZERO_PACKET), Empty(ackSize, ackCount, ZERO_PACKET), [], 0),
           {}, {}, [], [], [], {})
  }
}
