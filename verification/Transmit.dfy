/** The loops over the transmit queue, as the source runs them on the queue in place. */
module Transmit {
  import opened RingWindow
  import opened Packets
  import opened Sender
  import opened UserTx
  import CQ = CircularQueue

  type Queue = CQ.CircularQueue<Packet>

  // ---- doEtcpNetTx ----

  // One iteration, for slot i.
  method TxSlot(cq: Queue, i: int, hw: int -> bool) returns (sent: seq<Sent>, stop: bool, err: EtcpError)
    requires cq.Valid()
    modifies cq, cq.slots
    ensures TxStep(cq.W(), sent, stop, err) == TxAt(old(cq.W()), i, hw)
    ensures cq.Valid()
  {
    hide Release, Window.Inv;
    sent, stop, err := [], false, NoError;
    var e, slot := cq.GetRd(i);
    if e == WrongSlot {
      return;
    }
    if e != NoErr {
      return [], true, CqErr;
    }
    var p := slot.buff;
    if p.txState == TxDrp {
      e := cq.ReleaseSlot(i);
      return;
    }
    if p.txState != TxNow {
      return;
    }
    // before the packet is sent, make it ready to be sent again
    cq.Store(i, p.(txState := TxRdy));
    if p.kind == KindNone {
      return [], true, Fatal;
    }
    if !hw(i) {
      return [], true, TryAgain;
    }
    sent := [Sent(i, p)];
    if p.kind == KindDat {
      cq.Store(i, p.(txState := TxRdy, dat := p.dat.(txAttempts := (p.dat.txAttempts + 1) % TWO_TO_THE_16)));
      assert cq.W() == old(cq.W()).Put(i, MarkSent(p));
      if p.dat.noAck {
        e := cq.ReleaseSlot(i);
      }
    } else {
      e := cq.ReleaseSlot(i);
    }
  }

  method DoEtcpNetTx(cq: Queue, maxSlots: nat, hw: int -> bool) returns (out: seq<Sent>, err: EtcpError)
    requires cq.Valid()
    modifies cq, cq.slots
    ensures TxRun(cq.W(), out, err) == NetTx(old(cq.W()), old(cq.rdSeq), maxSlots, hw, [])
    ensures cq.Valid()
  {
    hide TxAt, Window.Inv;
    out := [];
    var i: int := cq.rdMin;
    while i < cq.rdMax && i < cq.rdMin + maxSlots
      invariant cq.Valid()
      invariant NetTx(old(cq.W()), old(cq.rdSeq), maxSlots, hw, []) == NetTx(cq.W(), i, maxSlots, hw, out)
      decreases cq.wrSeq + 1 - i
    {
      ReadLimit(cq.W());
      var sent, stop, e := TxSlot(cq, i, hw);
      out := out + sent;
      if stop {
        return out, e;
      }
      i := i + 1;
    }
    err := NoError;
  }

  // ---- etcpOnRxAck ----

  method EtcpProcessAck(cq: Queue, s: int) returns (err: EtcpError)
    requires cq.Valid()
    modifies cq, cq.slots
    ensures (cq.W(), err) == ProcessAck(old(cq.W()), s)
    ensures cq.Valid()
  {
    // the comparison is unsigned, so a negative number counts as a large one
    if 0 <= s < cq.rdMin {
      return NoError;
    }
    var e, slot := cq.GetRd(s);
    if e != NoErr {
      return CqErr;
    }
    if slot.buff.dat.seqNum != s {
      return NoError;
    }
    e := cq.ReleaseSlot(s);
    err := if e == NoErr then NoError else CqErr;
  }

  lemma AckMore(w: PacketQ, acks: seq<int>, s: int)
    requires w.Inv()
    ensures AckAll(w, acks + [s]) == ProcessAck(AckAll(w, acks), s).0
  {
    assert (acks + [s])[..|acks|] == acks;
    hide ProcessAck;
  }

  lemma ExpandMore(base: int, fields: seq<SackField>, k: nat)
    requires k < |fields|
    ensures Expand(base, fields[..k + 1]) == Expand(base, fields[..k]) + Range(base + fields[k].offset, fields[k].count)
  {
    assert fields[..k + 1][..k] == fields[..k];
  }

  // One field; the counter of the source has 16 bits, so it ends only for counts below 2^16.
  method AckField(cq: Queue, start: int, count: nat, ghost w: PacketQ, ghost before: seq<int>)
    requires cq.Valid() && count < TWO_TO_THE_16
    requires w.Inv() && cq.W() == AckAll(w, before)
    modifies cq, cq.slots
    ensures cq.Valid() && cq.W() == AckAll(w, before + Range(start, count))
  {
    hide ProcessAck, Window.Inv, AckAll;
    var ackIdx := 0;
    assert before + Range(start, 0) == before;
    while ackIdx < count
      invariant 0 <= ackIdx <= count && cq.Valid()
      invariant cq.W() == AckAll(w, before + Range(start, ackIdx))
    {
      var ackSeq := start + ackIdx;
      var _ := EtcpProcessAck(cq, ackSeq);
      AckMore(w, before + Range(start, ackIdx), ackSeq);
      assert before + Range(start, ackIdx) + [ackSeq] == before + Range(start, ackIdx + 1);
      ackIdx := (ackIdx + 1) % TWO_TO_THE_16;
    }
  }

  method EtcpOnRxAck(cq: Queue, a: Sack) returns (err: EtcpError)
    requires cq.Valid()
    requires forall f | f in a.fields :: f.count < TWO_TO_THE_16
    modifies cq, cq.slots
    ensures (cq.W(), err) == OnRxAck(old(cq.W()), a)
    ensures cq.Valid()
  {
    hide ProcessAck, Window.Inv;
    if a.sackCount != |a.fields| {
      return BadPkt;
    }
    ghost var w := cq.W();
    for sackIdx := 0 to |a.fields|
      invariant cq.Valid()
      invariant w.Inv() && cq.W() == AckAll(w, Expand(a.base, a.fields[..sackIdx]))
    {
      var f := a.fields[sackIdx];
      AckField(cq, a.base + f.offset, f.count, w, Expand(a.base, a.fields[..sackIdx]));
      ExpandMore(a.base, a.fields, sackIdx);
    }
    assert a.fields[..|a.fields|] == a.fields;
    err := NoError;
  }
}
