/** What arriving data and a reading user do to the receive window. */
module RecvProofs {
  import opened RingWindow
  import opened Packets
  import opened LinkedList
  import opened Receiver
  import opened AckProofs

  // A data packet as it leaves a sender: the receiver's own marks are not set.
  predicate Fresh(d: DatHdr) { !d.ackSent && !d.staleDat }

  lemma StoreWindow(w: PacketQ, d: DatHdr, len: int)
    requires RxWindow(w) && Fresh(d) && w.InRange(d.seqNum) && !w.At(d.seqNum).valid
    requires len == w.At(d.seqNum).len
    ensures w.Inv()
    ensures var w' := Commit(w.Put(d.seqNum, RxPacket(d)), d.seqNum, len).0;
            && RxWindow(w')
            && w'.rdSeq == w.rdSeq && w'.wrSeq >= w.wrSeq && w'.Count() == w.Count()
            && (forall t :: w'.Has(t) <==> w.Has(t) || t == d.seqNum)
            && (forall t | w.Has(t) :: w'.At(t) == w.At(t))
            && w'.Has(d.seqNum) && w'.At(d.seqNum).buff == RxPacket(d)
  {
    hide Commit;
    var s := d.seqNum;
    var v := w.Put(s, RxPacket(d));
    CommitFacts(v, s, len);
    var w' := Commit(v, s, len).0;
    assert s >= w.wrSeq;
    assert forall t :: w'.Has(t) <==> w.Has(t) || t == s;
  }

  /** A data packet is kept in its own slot if it falls into the window and has not arrived
      before; then nothing else in the window changes.  A packet that arrives twice, or that
      lies outside the window, leaves the window as it is; one from below the window that
      wants an acknowledgement joins the stale list.  Each of these reports its own result. */
  lemma RxDatFacts(r: Receiver, d: DatHdr)
    requires RxWindow(r.rxQ) && Fresh(d) && AckEdge(r.rxQ, r.seqAck)
    ensures r.rxQ.Inv()
    ensures var (r', err) := OnRxDat(r, d);
            var takes := r.rxQ.InRange(d.seqNum) && !r.rxQ.Has(d.seqNum);
            && RxWindow(r'.rxQ) && AckEdge(r'.rxQ, r'.seqAck) && r'.seqAck == r.seqAck && r'.txQ == r.txQ
            && r'.rxQ.rdSeq == r.rxQ.rdSeq && r'.rxQ.wrSeq >= r.rxQ.wrSeq
            && (!takes ==> r'.rxQ == r.rxQ)
            && (takes ==> err == NoError && r'.rxQ.Has(d.seqNum) && r'.rxQ.At(d.seqNum).buff == RxPacket(d))
            && RxPacket(d) == Packet(TxRdy, KindDat, d, Sack(0, 0, []))
            && (forall t | t != d.seqNum :: r'.rxQ.Has(t) <==> r.rxQ.Has(t))
            && (forall t | r.rxQ.Has(t) :: r'.rxQ.At(t) == r.rxQ.At(t))
            && (err == TryAgain <==> r.rxQ.Has(d.seqNum))
            && (err == RangeErr <==> d.seqNum >= r.rxQ.rdSeq + r.rxQ.Count())
            && (err == CqErr <==> d.seqNum < r.rxQ.rdSeq && d.noAck)
            && (err == NoError <==> takes || (d.seqNum < r.rxQ.rdSeq && !d.noAck))
            && r'.staleQ == if d.seqNum < r.rxQ.rdSeq && !d.noAck
                            then InsertOrd(r.staleQ, Entry(d.seqNum, 1, RxPacket(d.(staleDat := true))))
                            else r.staleQ
  {
    if r.rxQ.InRange(d.seqNum) && !r.rxQ.Has(d.seqNum) {
      StoreWindow(r.rxQ, d, r.rxQ.At(d.seqNum).len);
    }
    hide Commit, InsertOrd;
  }

  /** The user gets the packet at the read edge and nothing else, once it has been
      acknowledged; reading moves the edge on by exactly one. */
  lemma UserRxFacts(w: PacketQ, len: nat)
    requires RxWindow(w)
    ensures w.Inv()
    ensures var (w', data, err) := UserRx(w, len);
            if w.rdSeq < w.wrSeq && w.At(w.rdSeq).buff.dat.ackSent then
              && RxWindow(w')
              && data == Got(Take(w.At(w.rdSeq).buff.dat.payload, len)) && err == NoError
              && w'.rdSeq == w.rdSeq + 1 && w'.wrSeq == w.wrSeq
              && (forall t :: w'.Has(t) <==> w.Has(t) && t != w.rdSeq)
              && (forall t | w'.Has(t) :: w'.At(t) == w.At(t))
            else w' == w && data == Nothing && err == TryAgain
  {
    if w.rdSeq < w.wrSeq && w.At(w.rdSeq).buff.dat.ackSent {
      assert w.Has(w.rdSeq);
      ReadOne(w);
    }
    hide Release;
  }

  lemma ReadOne(w: PacketQ)
    requires RxWindow(w) && w.rdSeq < w.wrSeq
    ensures var w' := Release(w, w.rdSeq).0;
            && RxWindow(w') && w'.rdSeq == w.rdSeq + 1 && w'.wrSeq == w.wrSeq
            && (forall t :: w'.Has(t) <==> w.Has(t) && t != w.rdSeq)
            && (forall t | w'.Has(t) :: w'.At(t) == w.At(t))
  {
    ReleaseHas(w, w.rdSeq);
    ReleaseFacts(w, w.rdSeq);
    assert w.rdSeq + 1 < w.wrSeq ==> w.Has(w.rdSeq + 1);
  }

  // The acknowledged edge is not touched by a read.
  lemma ReadEdge(w: PacketQ, w': PacketQ, n: int)
    requires AckEdge(w, n) && w'.wrSeq == w.wrSeq
    requires forall t | w'.Has(t) :: w.Has(t) && w'.At(t) == w.At(t)
    ensures AckEdge(w', n)
  {
  }

  // The read edge, and what releasing the packet there does.
  lemma FirstGone(w: PacketQ)
    requires w.Inv() && w.rdSeq < w.wrSeq
    ensures w.Has(w.rdSeq)
    ensures var v := Release(w, w.rdSeq).0;
            && v.Inv() && v.wrSeq == w.wrSeq && v.rdSeq > w.rdSeq
            && (forall t :: v.Has(t) <==> w.Has(t) && t > w.rdSeq) && (forall t | v.Has(t) :: v.At(t) == w.At(t))
  {
    ReleaseHas(w, w.rdSeq);
    ReleaseFacts(w, w.rdSeq);
    hide Release;
  }

  /** Reading from any queue: stale packets at the read edge are thrown away, up to the first
      packet that is not stale.  If all of these have been acknowledged, and so has that one, it
      is handed out; otherwise reading stops at the first one that has not been, or at the
      write edge. */
  lemma {:induction false} UserRxSkips(w: PacketQ, len: nat) returns (t: int)
    requires w.Inv()
    ensures var (v, data, err) := UserRx(w, len);
            && v.Inv() && v.wrSeq == w.wrSeq && (forall u | v.Has(u) :: w.Has(u) && v.At(u) == w.At(u))
            && (forall u | w.Has(u) && !v.Has(u) :: w.At(u).buff.dat.ackSent)
            && (forall u | w.Has(u) && !v.Has(u) && !(data.Got? && u == t) :: w.At(u).buff.dat.staleDat)
            && (if data.Got?
                then && err == NoError && w.Has(t) && !w.At(t).buff.dat.staleDat
                     && data.data == Take(w.At(t).buff.dat.payload, len)
                     && (forall u :: v.Has(u) <==> w.Has(u) && u > t)
                else && err == TryAgain && (forall u :: v.Has(u) <==> w.Has(u) && u >= v.rdSeq)
                     && (v.rdSeq == v.wrSeq || (v.Has(v.rdSeq) && !v.At(v.rdSeq).buff.dat.ackSent)))
    decreases w.wrSeq - w.rdSeq
  {
    t := w.rdSeq;
    AllAhead(w);
    if w.rdSeq < w.wrSeq {
      FirstGone(w);
      hide Release, Window.Inv;
      var d := w.At(w.rdSeq).buff.dat;
      if d.ackSent && d.staleDat {
        var m := Release(w, w.rdSeq).0;
        t := UserRxSkips(m, len);
        hide Window.Has;
      }
    }
  }

  lemma AllAhead(w: PacketQ)
    ensures forall u | w.Has(u) :: u >= w.rdSeq
  {
  }
}
