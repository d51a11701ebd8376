/** The receiving side of a connection: accepting data packets, generating
    acknowledgements for them and handing their payloads to the user. */
module Receiver {
  import opened Basics
  import opened RingWindow
  import opened Packets
  import opened LinkedList

  type StaleQ = seq<Entry<Packet>>

  datatype Receiver = Receiver(rxQ: PacketQ, txQ: PacketQ, staleQ: StaleQ, seqAck: int)

  // ---- Data packets ----

  function RxPacket(d: DatHdr): Packet { ZERO_PACKET.(kind := KindDat, dat := d) }

  // A packet past the window is dropped here; the source stops the process.
  function OnRxDat(r: Receiver, d: DatHdr): (Receiver, EtcpError)
    requires r.rxQ.Inv()
  {
    var w := r.rxQ;
    if d.seqNum >= w.rdSeq + w.Count() then (r, RangeErr)
    else if d.seqNum < w.rdSeq then
      if d.noAck then (r, CqErr)
      else (r.(staleQ := InsertOrd(r.staleQ, Entry(d.seqNum, 1, RxPacket(d.(staleDat := true))))), NoError)
    else if PushError(w, d.seqNum) == NoSlot then (r, TryAgain)
    else
      // cqPush clips the length to that of the slot, so the commit cannot refuse it.
      var w' := w.Put(d.seqNum, RxPacket(d));
      (r.(rxQ := Commit(w', d.seqNum, w.At(d.seqNum).len).0), NoError)
  }

  // ---- Handing data to the user ----

  datatype UserData = Nothing | Got(data: Bytes)

  function UserRx(w: PacketQ, len: nat): (PacketQ, UserData, EtcpError)
    requires w.Inv()
    decreases w.wrSeq - w.rdSeq
  {
    if w.rdSeq == w.wrSeq then (w, Nothing, TryAgain)
    else
      var d := w.At(w.rdSeq).buff.dat;
      if !d.ackSent then (w, Nothing, TryAgain)
      else
        ReleaseHas(w, w.rdSeq);
        var w' := Release(w, w.rdSeq).0;
        if d.staleDat then UserRx(w', len) else (w', Got(Take(d.payload, len)), NoError)
  }

  // ---- Queueing a SACK ----

  // The packet formatted into the slot keeps that slot's earlier transmission state.
  function PushSack(w: PacketQ, sack: Sack): (r: (PacketQ, EtcpError))
    requires w.Inv()
    ensures r.0.Inv() && (r.1 != NoError ==> r.0 == w)
  {
    if w.wrSeq == w.rdSeq + w.Count() then (w, TryAgain)
    else
      var p := w.At(w.wrSeq).buff.(kind := KindAck, sack := sack);
      (Commit(w.Put(w.wrSeq, p), w.wrSeq, w.At(w.wrSeq).len).0, NoError)
  }

  // ---- Acknowledging the receive window ----

  // The field buffer on the stack, and the entry of memory that lies behind it.
  type FieldBuff = fs: seq<SackField> | |fs| == MAX_SACKS + 1 witness seq(MAX_SACKS + 1, _ => SackField(0, 0))

  const NO_FIELD := SackField(0, 0)

  // Cleared with zeros, up to its end.
  function Cleared(behind: SackField): (fs: FieldBuff)
    ensures fs[MAX_SACKS] == behind && forall i | 0 <= i < MAX_SACKS :: fs[i] == SackField(0, 0)
  {
    seq(MAX_SACKS, _ => NO_FIELD) + [behind]
  }

  // The local variables of generateAcks; log collects the SACKs it has queued.
  datatype AckScan = AckScan(
    rxQ: PacketQ, txQ: PacketQ, seqAck: int,
    fieldIdx: nat, inProgress: bool, unsent: nat, base: int, fields: FieldBuff,
    log: seq<Sack>)
  {
    // How many fields have been opened since the last packet.
    function Open(): nat { fieldIdx + if inProgress then 1 else 0 }

    ghost predicate Ok() {
      rxQ.Inv() && txQ.Inv() && Open() <= MAX_SACKS
    }

    function Close(): AckScan {
      if inProgress then this.(fieldIdx := fieldIdx + 1, inProgress := false) else this
    }
  }

  datatype AckStep = AckStep(st: AckScan, stop: bool, err: EtcpError)

  // Sending what has been collected: the acknowledged edge moves to the end of the first field.
  function Flush(st: AckScan, sackCount: nat, n: nat): AckStep
    requires st.txQ.Inv() && n <= MAX_SACKS + 1
  {
    var sack := Sack(st.base, sackCount, st.fields[..n]);
    var (txQ, err) := PushSack(st.txQ, sack);
    if err != NoError then AckStep(st, true, err)
    else
      AckStep(AckScan(st.rxQ, txQ, st.seqAck + st.fields[0].offset + st.fields[0].count,
                      0, false, 0, 0, Cleared(st.fields[MAX_SACKS]), st.log + [sack]), false, NoError)
  }

  function MarkAcked(p: Packet): Packet { p.(dat := p.dat.(ackSent := true)) }

  function Wrap32(n: int): nat { n % TWO_TO_THE_32 }

  // Starting a field at packet p unless one is in progress.
  function OpenField(st: AckScan, p: Packet): AckScan
    requires st.Ok() && st.fieldIdx < MAX_SACKS
  {
    if st.inProgress then st
    else st.(base := if st.fieldIdx == 0 then st.seqAck else st.base,
             fields := st.fields[st.fieldIdx := SackField(Wrap32(p.dat.seqNum - st.seqAck), 0)],
             inProgress := true)
  }

  // The part of one iteration that looks at slot i.
  function ScanSlot(st: AckScan, i: int): (r: AckStep)
    requires st.Ok() && st.fieldIdx < MAX_SACKS
    ensures r.st.Ok() && r.st.rxQ.wrSeq == st.rxQ.wrSeq
  {
    var e := GetRd(st.rxQ, i);
    if e == WrongSlot then AckStep(st.Close(), false, NoError)
    else if e != NoErr then AckStep(st, true, CqErr)
    else
      var p := st.rxQ.At(i).buff;
      if p.dat.ackSent then AckStep(st, false, NoError)
      else
        var rxQ := st.rxQ.Put(i, MarkAcked(p));
        if p.dat.noAck then AckStep(st.Close().(rxQ := rxQ), false, NoError)
        else
          var st' := OpenField(st, p);
          var f := st'.fields[st.fieldIdx];
          AckStep(st'.(rxQ := rxQ, unsent := st.unsent + 1,
                       fields := st'.fields[st.fieldIdx := f.(count := Wrap32(f.count + 1))]), false, NoError)
  }

  // One iteration.  A full field buffer is sent first; its sackCount is left at zero.
  function AckAt(st: AckScan, i: int): (r: AckStep)
    requires st.Ok()
    ensures r.st.Ok() && r.st.rxQ.wrSeq == st.rxQ.wrSeq
  {
    if st.fieldIdx >= MAX_SACKS then
      var f := Flush(st, 0, MAX_SACKS);
      if f.stop then f else ScanSlot(f.st, i)
    else ScanSlot(st, i)
  }

  function AckLoop(st: AckScan, i: int, maxSlots: nat): (r: AckStep)
    requires st.Ok()
    ensures r.st.Ok()
    decreases st.rxQ.wrSeq + 1 - i
  {
    if i >= st.rxQ.rdMax || i >= st.rxQ.rdSeq + maxSlots then AckStep(st, false, NoError)
    else
      var s := AckAt(st, i);
      if s.stop then s else AckLoop(s.st, i + 1, maxSlots)
  }

  // After the loop: one more field than fieldIdx is sent, in progress or not.
  function AckEnd(s: AckStep): AckStep
    requires s.st.Ok()
  {
    if s.stop || s.st.unsent == 0 then s
    else Flush(s.st, s.st.fieldIdx + 1, s.st.fieldIdx + 1)
  }

  function AckStart(r: Receiver, behind: SackField): (st: AckScan)
    requires r.rxQ.Inv() && r.txQ.Inv()
    ensures st.Ok()
  {
    AckScan(r.rxQ, r.txQ, r.seqAck, 0, false, 0, 0, Cleared(behind), [])
  }

  /** generateAcks; behind is what memory holds just past its field buffer. */
  function GenerateAcks(r: Receiver, maxAckPackets: int, maxSlots: nat, behind: SackField)
    : (Receiver, EtcpError, seq<Sack>)
    requires r.rxQ.Inv() && r.txQ.Inv()
  {
    if maxAckPackets <= 0 || r.rxQ.readable == 0 then (r, NoError, [])
    else
      var s := AckEnd(AckLoop(AckStart(r, behind), r.rxQ.rdSeq, maxSlots));
      (r.(rxQ := s.st.rxQ, txQ := s.st.txQ, seqAck := s.st.seqAck), s.err, s.st.log)
  }
}
