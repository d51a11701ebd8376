/** A connection with its three queues, updated in place by the calls of the source.  Each
    method is shown to compute the function that the protocol is built from. */
module Connection {
  import opened Basics
  import opened RingWindow
  import opened Packets
  import LL = LinkedList
  import opened UserTx
  import opened Receiver
  import RX = Receiver
  import opened Stale
  import opened Transmit

  type Queue = Transmit.Queue

  // tmpBuff: a SACK under construction, and the memory behind it that a thirteenth field reaches.
  class SackBuff {
    var base: int
    const fields: array<SackField>

    ghost predicate Valid() { fields.Length == 13 }

    constructor (behind: SackField)
      ensures Valid() && base == 0 && fresh(fields) && fields[..] == Cleared(behind)
    {
      base := 0;
      fields := new SackField[13](i => if i == 12 then behind else NO_FIELD);
    }

    method Clear()
      requires Valid()
      modifies this, fields
      ensures base == 0 && fields[..] == Cleared(old(fields[12]))
    {
      base := 0;
      forall i | 0 <= i < 12 {
        fields[i] := NO_FIELD;
      }
    }

    // Counting one more number into field i.
    method Grow(i: nat)
      requires Valid() && i < 13
      modifies fields
      ensures fields[..] == old(fields[..])[i := old(fields[i]).(count := Wrap32(old(fields[i]).count + 1))]
    {
      fields[i] := fields[i].(count := Wrap32(fields[i].count + 1));
    }
  }

  function StaleEnd(st: StaleScan, empty: bool, err: EtcpError): StaleStep {
    if err != NoError then Return(st, err) else if empty then Break(st) else Next(st)
  }

  class EtcpConn {
    const rxQ: Queue
    const txQ: Queue
    const staleQ: LL.LinkedList<Packet>
    var seqAck: int
    var seqSnd: int

    ghost predicate Valid()
      reads this, rxQ, rxQ.slots, txQ, txQ.slots, staleQ, staleQ.spine
    {
      && rxQ != txQ && rxQ.slots != txQ.slots
      && rxQ.Valid() && txQ.Valid() && staleQ.Valid()
      && staleQ.slotDataSize > 0 && staleQ.slotCount == |staleQ.Contents()|
    }

    // The connection as the receiver of the protocol.
    ghost function R(): Receiver
      requires Valid()
      reads this, rxQ, rxQ.slots, txQ, txQ.slots, staleQ, staleQ.spine
    {
      Receiver(rxQ.W(), txQ.W(), staleQ.Contents(), seqAck)
    }

    constructor (rxQ: Queue, txQ: Queue, staleQ: LL.LinkedList<Packet>)
      requires rxQ != txQ && rxQ.slots != txQ.slots && rxQ.Valid() && txQ.Valid() && staleQ.Valid()
      requires staleQ.slotDataSize > 0 && staleQ.Contents() == [] && staleQ.slotCount == 0
      ensures Valid() && this.rxQ == rxQ && this.txQ == txQ && this.staleQ == staleQ
      ensures seqAck == 0 && seqSnd == 0
    {
      this.rxQ := rxQ;
      this.txQ := txQ;
      this.staleQ := staleQ;
      seqAck := 0;
      seqSnd := 0;
    }

    // A packet past the window is dropped here; the source stops the process.
    method EtcpOnRxDat(d: DatHdr) returns (err: EtcpError)
      requires Valid()
      modifies rxQ, rxQ.slots, staleQ, staleQ.spine
      ensures Valid()
      ensures (R(), err) == OnRxDat(old(R()), d)
    {
      hide LL.InsertOrd, Commit, Window.Inv;
      if d.seqNum >= rxQ.wrMax {
        return RangeErr;
      }
      if d.seqNum < rxQ.rdMin {
        if d.noAck {
          return CqErr;
        }
        var _, _ := staleQ.PushSeqOrd(RxPacket(d.(staleDat := true)), 1, d.seqNum);
        return NoError;
      }
      var e := rxQ.Push(RxPacket(d), d.seqNum);
      if e == NoSlot {
        return TryAgain;
      }
      var _, idx := rxQ.Get(d.seqNum);
      var _ := rxQ.CommitSlot(d.seqNum, rxQ.slots[idx].len);
      err := NoError;
    }

    method DoEtcpUserRx(len: nat) returns (data: UserData, err: EtcpError)
      requires Valid()
      modifies rxQ, rxQ.slots
      ensures Valid()
      ensures (rxQ.W(), data, err) == UserRx(old(rxQ.W()), len)
    {
      hide Release, Window.Inv;
      while true
        invariant Valid()
        invariant UserRx(old(rxQ.W()), len) == UserRx(rxQ.W(), len)
        decreases rxQ.wrSeq - rxQ.rdSeq
      {
        var e, seqNum, slot := rxQ.GetNextRd();
        if e == NoSlot {
          return Nothing, TryAgain;
        }
        var d := slot.buff.dat;
        if !d.ackSent {
          return Nothing, TryAgain;
        }
        ReleaseHas(rxQ.W(), seqNum);
        ReleaseFacts(rxQ.W(), seqNum);
        e := rxQ.ReleaseSlot(seqNum);
        if !d.staleDat {
          return Got(Take(d.payload, len)), NoError;
        }
      }
    }

    // Formatting a SACK into the next slot of the queue of outgoing packets.
    method PushSackEthPacket(sack: Sack) returns (err: EtcpError)
      requires Valid()
      modifies txQ, txQ.slots
      ensures Valid()
      ensures (txQ.W(), err) == PushSack(old(txQ.W()), sack)
    {
      hide Commit;
      var e, seqNum := txQ.GetNextWr();
      if e == NoSlot {
        return TryAgain;
      }
      var _, idx := txQ.Get(seqNum);
      var slot := txQ.slots[idx];
      txQ.Store(seqNum, slot.buff.(kind := KindAck, sack := sack));
      e := txQ.CommitSlot(seqNum, slot.len);
      err := NoError;
    }

    // ---- generateAcks ----

    // The state of the loop as a value.
    ghost function Scan(buf: SackBuff, fieldIdx: nat, inProgress: bool, unsent: nat, log: seq<Sack>): AckScan
      requires Valid() && buf.Valid()
      reads this, rxQ, rxQ.slots, txQ, txQ.slots, staleQ, staleQ.spine, buf, buf.fields
    {
      AckScan(rxQ.W(), txQ.W(), seqAck, fieldIdx, inProgress, unsent, buf.base, buf.fields[..], log)
    }

    // Queueing the first n fields and moving the acknowledged edge behind the first of them.
    method SendFields(buf: SackBuff, sackCount: nat, n: nat) returns (err: EtcpError)
      requires Valid() && buf.Valid() && n <= 13
      modifies txQ, txQ.slots, `seqAck
      ensures Valid() && seqSnd == old(seqSnd)
      ensures (txQ.W(), err) == PushSack(old(txQ.W()), Sack(buf.base, sackCount, buf.fields[..n]))
      ensures seqAck == old(seqAck) + if err == NoError then buf.fields[0].offset + buf.fields[0].count else 0
    {
      err := PushSackEthPacket(Sack(buf.base, sackCount, buf.fields[..n]));
      if err == NoError {
        seqAck := seqAck + buf.fields[0].offset + buf.fields[0].count;
      }
    }

    // What one iteration does with slot i.
    method AckSlot(buf: SackBuff, i: int, fieldIdx: nat, inProgress: bool, unsent: nat, ghost log: seq<Sack>)
      returns (fieldIdx': nat, inProgress': bool, unsent': nat, err: EtcpError)
      requires Valid() && buf.Valid()
      requires Scan(buf, fieldIdx, inProgress, unsent, log).Ok() && fieldIdx < MAX_SACKS
      modifies rxQ.slots, buf, buf.fields
      ensures Valid()
      ensures AckStep(Scan(buf, fieldIdx', inProgress', unsent', log), err != NoError, err)
              == ScanSlot(old(Scan(buf, fieldIdx, inProgress, unsent, log)), i)
    {
      hide Window.Inv, CQ.Unroll, CQ.CircularQueue.Shape, Bits.Pow2, LL.Chain, LL.Values, LL.Sorted;
      fieldIdx', inProgress', unsent', err := fieldIdx, inProgress, unsent, NoError;
      var e, slot := rxQ.GetRd(i);
      if e == WrongSlot {
        if inProgress {
          fieldIdx', inProgress' := fieldIdx + 1, false;
        }
        return;
      }
      if e != NoErr {
        err := CqErr;
        return;
      }
      var p := slot.buff;
      if p.dat.ackSent {
        return;
      }
      rxQ.Store(i, MarkAcked(p));
      if p.dat.noAck {
        if inProgress {
          fieldIdx', inProgress' := fieldIdx + 1, false;
        }
        return;
      }
      if !inProgress {
        if fieldIdx == 0 {
          buf.base := seqAck;
        }
        buf.fields[fieldIdx] := SackField(Wrap32(p.dat.seqNum - seqAck), 0);
        inProgress' := true;
      }
      unsent' := unsent + 1;
      buf.Grow(fieldIdx);
    }

    // One iteration: a full field buffer goes out first.  The packet counter of the source
    // stays at zero, so its limit never ends the loop.
    method AckIteration(buf: SackBuff, i: int, fieldIdx: nat, inProgress: bool, unsent: nat, ghost log: seq<Sack>)
      returns (fieldIdx': nat, inProgress': bool, unsent': nat, err: EtcpError, ghost log': seq<Sack>)
      requires Valid() && buf.Valid() && Scan(buf, fieldIdx, inProgress, unsent, log).Ok()
      modifies rxQ.slots, txQ, txQ.slots, `seqAck, buf, buf.fields
      ensures Valid()
      ensures AckStep(Scan(buf, fieldIdx', inProgress', unsent', log'), err != NoError, err)
              == AckAt(old(Scan(buf, fieldIdx, inProgress, unsent, log)), i)
    {
      hide ScanSlot, PushSack, Window.Inv, CQ.Unroll, CQ.CircularQueue.Shape, LL.Chain, LL.Values, LL.Sorted;
      fieldIdx', inProgress', unsent', err, log' := fieldIdx, inProgress, unsent, NoError, log;
      if fieldIdx >= MAX_SACKS {
        log' := log + [Sack(buf.base, 0, buf.fields[..MAX_SACKS])];
        err := SendFields(buf, 0, MAX_SACKS);
        if err != NoError {
          log' := log;
          return;
        }
        buf.Clear();
        fieldIdx', inProgress', unsent' := 0, false, 0;
      }
      fieldIdx', inProgress', unsent', err := AckSlot(buf, i, fieldIdx', inProgress', unsent', log');
    }

    // The loop over the slots of the receive window.
    method AckSlots(buf: SackBuff, maxSlots: nat)
      returns (fieldIdx: nat, inProgress: bool, unsent: nat, err: EtcpError, ghost log: seq<Sack>)
      requires Valid() && buf.Valid()
      modifies rxQ.slots, txQ, txQ.slots, `seqAck, buf, buf.fields
      ensures Valid()
      ensures old(Scan(buf, 0, false, 0, [])).Ok()
      ensures AckStep(Scan(buf, fieldIdx, inProgress, unsent, log), err != NoError, err)
              == AckLoop(old(Scan(buf, 0, false, 0, [])), old(rxQ.rdSeq), maxSlots)
    {
      hide AckAt, Window.Inv, CQ.Unroll, Bits.Pow2, LL.Chain, LL.Values, LL.Sorted;
      fieldIdx, inProgress, unsent, err, log := 0, false, 0, NoError, [];
      var i: int := rxQ.rdMin;
      while i < rxQ.rdMax && i < rxQ.rdMin + maxSlots
        invariant Valid() && Scan(buf, fieldIdx, inProgress, unsent, log).Ok() && err == NoError
        invariant AckLoop(old(Scan(buf, 0, false, 0, [])), old(rxQ.rdSeq), maxSlots)
                  == AckLoop(Scan(buf, fieldIdx, inProgress, unsent, log), i, maxSlots)
        decreases rxQ.rdMax - i
      {
        fieldIdx, inProgress, unsent, err, log := AckIteration(buf, i, fieldIdx, inProgress, unsent, log);
        if err != NoError {
          return;
        }
        i := i + 1;
      }
    }

    method GenerateAcks(maxAckPackets: int, maxSlots: nat, behind: SackField)
      returns (err: EtcpError, ghost log: seq<Sack>)
      requires Valid()
      modifies rxQ.slots, txQ, txQ.slots, `seqAck
      ensures Valid()
      ensures (R(), err, log) == RX.GenerateAcks(old(R()), maxAckPackets, maxSlots, behind)
    {
      hide AckLoop, PushSack, Cleared, Window.Inv, CQ.Unroll, Bits.Pow2, LL.Chain, LL.Values, LL.Sorted;
      log, err := [], NoError;
      if maxAckPackets <= 0 {
        return;
      }
      if rxQ.readable == 0 {
        return;
      }
      var buf := new SackBuff(behind);
      var fieldIdx, inProgress, unsent;
      fieldIdx, inProgress, unsent, err, log := AckSlots(buf, maxSlots);
      if err != NoError {
        return;
      }
      if unsent > 0 {
        ghost var sack := Sack(buf.base, fieldIdx + 1, buf.fields[..fieldIdx + 1]);
        err := SendFields(buf, fieldIdx + 1, fieldIdx + 1);
        if err == NoError {
          log := log + [sack];
        }
      }
    }

    // ---- generateStaleAcks ----

    ghost function Visits(
      buf: SackBuff, fieldIdx: nat, inProgress: bool, expected: int, unsent: nat, log: seq<Sack>): StaleScan
      requires Valid() && buf.Valid()
      reads this, rxQ, rxQ.slots, txQ, txQ.slots, staleQ, staleQ.spine, buf, buf.fields
    {
      StaleScan(staleQ.Contents(), txQ.W(), fieldIdx, inProgress, expected, unsent, buf.base, buf.fields[..], log)
    }

    // Acknowledging number seqNum, which the head of the list has.
    method AckFirst(buf: SackBuff, seqNum: int, fieldIdx: nat, inProgress: bool, expected: int, unsent: nat,
                    ghost log: seq<Sack>)
      returns (fieldIdx': nat, inProgress': bool, expected': int, unsent': nat)
      requires Valid() && buf.Valid() && fieldIdx < MAX_SACKS
      modifies buf, buf.fields
      ensures Valid()
      ensures Visits(buf, fieldIdx', inProgress', expected', unsent', log)
              == AckHead(old(Visits(buf, fieldIdx, inProgress, expected, unsent, log)), seqNum)
    {
      hide Window.Inv, CQ.Unroll, CQ.CircularQueue.Shape, LL.Chain, LL.Values, LL.Sorted;
      fieldIdx', inProgress', expected' := fieldIdx, inProgress, expected;
      if seqNum > expected' {
        if inProgress {
          fieldIdx', inProgress', expected' := fieldIdx + 1, false, seqNum;
        }
      }
      if !inProgress' {
        if fieldIdx' == 0 {
          buf.base := seqNum;
        }
        buf.fields[fieldIdx'] := SackField(Wrap32(seqNum - buf.base), 0);
        inProgress' := true;
      }
      unsent' := unsent + 1;
      buf.Grow(fieldIdx');
      expected' := expected' + 1;
    }

    // What one iteration does with the head of the list.
    method VisitFirst(buf: SackBuff, i: nat, fieldIdx: nat, inProgress: bool, expected: int, unsent: nat,
                      ghost log: seq<Sack>)
      returns (fieldIdx': nat, inProgress': bool, expected': int, unsent': nat, empty: bool, err: EtcpError)
      requires Valid() && buf.Valid() && fieldIdx < MAX_SACKS
      modifies staleQ, buf, buf.fields
      ensures Valid() && err in {NoError, Fatal}
      ensures StaleEnd(Visits(buf, fieldIdx', inProgress', expected', unsent', log), empty, err)
              == VisitHead(old(Visits(buf, fieldIdx, inProgress, expected, unsent, log)), i)
    {
      hide AckHead, Window.Inv, CQ.Unroll, CQ.CircularQueue.Shape, LL.Chain, LL.Sorted;
      fieldIdx', inProgress', expected', unsent', empty, err := fieldIdx, inProgress, expected, unsent, false, NoError;
      var e, slot := staleQ.GetFirst();
      if e != LL.LlNoErr {
        empty := true;
        return;
      }
      var seqNum := slot.seqNum;
      if i == 0 {
        expected' := seqNum;
      }
      if seqNum < expected' {
        if seqNum == expected' - 1 {
          staleQ.ReleaseHead();
          return;
        }
        err := Fatal;
        return;
      }
      fieldIdx', inProgress', expected', unsent' := AckFirst(buf, seqNum, fieldIdx, inProgress, expected', unsent, log);
    }

    method StaleIteration(buf: SackBuff, i: nat, fieldIdx: nat, inProgress: bool, expected: int, unsent: nat,
                          ghost log: seq<Sack>)
      returns (fieldIdx': nat, inProgress': bool, expected': int, unsent': nat, empty: bool, err: EtcpError,
               ghost log': seq<Sack>)
      requires Valid() && buf.Valid() && fieldIdx <= MAX_SACKS
      modifies staleQ, txQ, txQ.slots, buf, buf.fields
      ensures Valid()
      ensures StaleEnd(Visits(buf, fieldIdx', inProgress', expected', unsent', log'), empty, err)
              == StaleAt(old(Visits(buf, fieldIdx, inProgress, expected, unsent, log)), i)
    {
      hide VisitHead, PushSack, Window.Inv, CQ.Unroll, CQ.CircularQueue.Shape, LL.Chain, LL.Values, LL.Sorted;
      fieldIdx', inProgress', unsent', empty, err, log' := fieldIdx, inProgress, unsent, false, NoError, log;
      expected' := expected;
      if fieldIdx >= MAX_SACKS {
        ghost var sack := Sack(buf.base, 0, buf.fields[..MAX_SACKS]);
        err := PushSackEthPacket(Sack(buf.base, 0, buf.fields[..MAX_SACKS]));
        if err != NoError {
          return;
        }
        log' := log + [sack];
        buf.Clear();
        fieldIdx', inProgress', unsent' := 0, false, 0;
      }
      fieldIdx', inProgress', expected', unsent', empty, err :=
        VisitFirst(buf, i, fieldIdx', inProgress', expected, unsent', log');
    }

    // The loop over the stale list.
    method VisitList(buf: SackBuff, maxSlots: nat)
      returns (fieldIdx: nat, inProgress: bool, expected: int, unsent: nat, err: EtcpError, ghost log: seq<Sack>)
      requires Valid() && buf.Valid()
      modifies staleQ, txQ, txQ.slots, buf, buf.fields
      ensures Valid() && fieldIdx <= MAX_SACKS
      ensures txQ.W().Inv() && old(txQ.W()).Inv()
      ensures StaleEnd(Visits(buf, fieldIdx, inProgress, expected, unsent, log), true, err)
              == StaleLoop(old(Visits(buf, 0, false, 0, 0, [])), 0, maxSlots)
    {
      hide StaleAt, Window.Inv, CQ.CircularQueue.W, CQ.CircularQueue.Shape, LL.Chain, LL.Sorted;
      fieldIdx, inProgress, expected, unsent, err, log := 0, false, 0, 0, NoError, [];
      var i: nat, empty := 0, false;
      while i < maxSlots
        invariant Valid() && fieldIdx <= MAX_SACKS && err == NoError
        invariant StaleLoop(old(Visits(buf, 0, false, 0, 0, [])), 0, maxSlots)
                  == StaleLoop(Visits(buf, fieldIdx, inProgress, expected, unsent, log), i, maxSlots)
      {
        fieldIdx, inProgress, expected, unsent, empty, err, log :=
          StaleIteration(buf, i, fieldIdx, inProgress, expected, unsent, log);
        if err != NoError || empty {
          return;
        }
        i := i + 1;
      }
    }

    // after is what memory holds behind the field buffer when the loop has ended.
    method GenerateStaleAcks(maxAckPackets: int, maxSlots: nat, behind: SackField)
      returns (err: EtcpError, ghost log: seq<Sack>, ghost after: SackField)
      requires Valid()
      modifies staleQ, txQ, txQ.slots
      ensures Valid()
      ensures (R(), err, log) == Stale.GenerateStaleAcks(old(R()), maxAckPackets, maxSlots, behind)
      ensures after == BehindAfter(old(R()), maxAckPackets, maxSlots, behind)
    {
      hide StaleLoop, PushSack, Window.Inv, CQ.CircularQueue.W, CQ.CircularQueue.Shape, LL.Chain, LL.Sorted;
      log, err, after := [], NoError, behind;
      if maxAckPackets <= 0 {
        return;
      }
      if staleQ.slotCount == 0 {
        return;
      }
      var buf := new SackBuff(behind);
      var fieldIdx, inProgress, expected, unsent;
      fieldIdx, inProgress, expected, unsent, err, log := VisitList(buf, maxSlots);
      after := buf.fields[12];
      if err != NoError {
        return;
      }
      if unsent > 0 {
        ghost var sack := Sack(buf.base, fieldIdx + 1, buf.fields[..fieldIdx + 1]);
        err := PushSackEthPacket(Sack(buf.base, fieldIdx + 1, buf.fields[..fieldIdx + 1]));
        if err == NoError {
          log := log + [sack];
        }
      }
    }

    // ---- doEtcpUserTx ----

    // Formatting one packet into the slot at the write edge.
    method AddPacket(seqNum: int, payload: Bytes, noAck: bool)
      requires Valid() && seqNum == txQ.wrSeq < txQ.rdSeq + txQ.slotCount
      modifies txQ, txQ.slots, `seqSnd
      ensures Valid() && seqSnd == old(seqSnd) + 1
      ensures txQ.W() == AddDat(old(txQ.W()), old(seqSnd), payload, noAck)
    {
      hide Commit, CQ.Unroll, Bits.Pow2, LL.Chain, LL.Values, LL.Sorted;
      var _, idx := txQ.Get(seqNum);
      var slot := txQ.slots[idx];
      txQ.Store(seqNum, NewDat(slot.buff, seqSnd, payload, noAck));
      var _ := txQ.CommitSlot(seqNum, slot.len);
      seqSnd := seqSnd + 1;
    }

    // datSpace is what a slot has room for behind the headers; sent is the count handed back.
    method DoEtcpUserTx(data: Bytes, datSpace: int, noAck: bool)
      returns (err: EtcpError, sent: nat, ghost queued: seq<Bytes>)
      requires Valid()
      modifies txQ, txQ.slots, `seqSnd
      ensures Valid()
      ensures SendRun(txQ.W(), seqSnd, sent, err, queued)
              == Send(old(txQ.W()), old(seqSnd), data, datSpace, noAck, 0, [])
    {
      hide AddDat, Window.Inv, CQ.Unroll, Bits.Pow2, LL.Chain, LL.Values, LL.Sorted;
      var bytesSent: nat := 0;
      queued := [];
      while bytesSent < |data|
        invariant Valid()
        invariant Send(txQ.W(), seqSnd, data, datSpace, noAck, bytesSent, queued)
                  == Send(old(txQ.W()), old(seqSnd), data, datSpace, noAck, 0, [])
      {
        var e, seqNum := txQ.GetNextWr();
        if e == NoSlot {
          return TryAgain, bytesSent, queued;
        }
        if datSpace < 1 {
          return Fatal, |data|, queued;
        }
        var datLen := Min(datSpace, |data|);
        AddPacket(seqNum, data[..datLen], noAck);
        bytesSent := bytesSent + datLen;
        queued := queued + [data[..datLen]];
      }
      return NoError, bytesSent, queued;
    }
  }
}
