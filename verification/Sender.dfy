/** The sending side of a connection: queueing user data, transmitting what transmission
    control has marked, and freeing what has been acknowledged. */
module Sender {
  import opened Basics
  import opened RingWindow
  import opened Packets

  // Each packet of the queue is the DAT of its own position, and none is queued ahead.
  ghost predicate Identity(w: PacketQ) {
    && w.Inv()
    && forall s | w.InRange(s) && w.At(s).valid ::
         s < w.wrSeq && w.At(s).buff.kind == KindDat && w.At(s).buff.dat.seqNum == s
  }

  function ProcessAck(w: PacketQ, s: int): (r: (PacketQ, EtcpError))
    requires w.Inv()
    ensures r.0.Inv()
  {
    if 0 <= s < w.rdSeq then (w, NoError)
    else if GetRd(w, s) != NoErr then (w, CqErr)
    else if w.At(s).buff.dat.seqNum != s then (w, NoError)
    else
      var (w', err) := Release(w, s);
      (w', if err == NoErr then NoError else CqErr)
  }

  // Its result is ignored by the loop that calls it.
  function AckAll(w: PacketQ, acks: seq<int>): (r: PacketQ)
    requires w.Inv()
    ensures r.Inv()
    decreases |acks|
  {
    if acks == [] then w else ProcessAck(AckAll(w, acks[..|acks| - 1]), Last(acks)).0
  }

  // A SACK whose count differs from its length is refused.
  predicate Accepts(s: Sack) { s.sackCount == |s.fields| }

  function OnRxAck(w: PacketQ, a: Sack): (r: (PacketQ, EtcpError))
    requires w.Inv()
    ensures r.0.Inv()
  {
    if !Accepts(a) then (w, BadPkt) else (AckAll(w, Expand(a.base, a.fields)), NoError)
  }

  lemma ProcessAckExact(w: PacketQ, s: int)
    requires Identity(w)
    ensures var r := ProcessAck(w, s).0;
            && Identity(r)
            && r.Count() == w.Count() && r.wrSeq == w.wrSeq && w.rdSeq <= r.rdSeq
            && (forall t :: r.Has(t) <==> w.Has(t) && t != s)
            && (forall t | r.Has(t) :: r.At(t) == w.At(t))
  {
    ReleaseHas(w, s);
  }

  /** What one acknowledgement reports, of any queue: an error if it is for no packet of the queue,
      or frees one that is not the first; nothing if it is for a packet that has gone, or if
      the slot is in use for another one. */
  lemma ProcessAckCodes(w: PacketQ, s: int)
    requires w.Inv()
    ensures var (r, err) := ProcessAck(w, s);
            && (err == CqErr <==> !(0 <= s < w.rdSeq)
                                  && (!w.Has(s) || (w.At(s).buff.dat.seqNum == s && s != w.rdSeq)))
            && err in {NoError, CqErr}
            && (forall t :: r.Has(t) <==> w.Has(t) && !(t == s && w.At(s).buff.dat.seqNum == s))
            && (forall t | r.Has(t) :: r.At(t) == w.At(t))
  {
    ReleaseHas(w, s);
    hide Release, Window.Inv;
  }

  /** A SACK is refused if and only if its count is not the number of its fields, and then
      nothing is freed. */
  lemma RefusedExact(w: PacketQ, a: Sack)
    requires w.Inv()
    ensures var (r, err) := OnRxAck(w, a);
            && (err == BadPkt <==> a.sackCount != |a.fields|)
            && (err == BadPkt ==> r == w) && err in {NoError, BadPkt}
            && (err == NoError ==> r == AckAll(w, Expand(a.base, a.fields)))
  {
  }

  /** An acknowledgement of s frees the packet numbered s and nothing else, whether or not
      it is late, repeated or out of order; in particular it never frees the later packet
      that has taken over the same physical slot. */
  lemma {:induction false} AckAllExact(w: PacketQ, acks: seq<int>)
    requires Identity(w)
    ensures var r := AckAll(w, acks);
            && Identity(r)
            && r.Count() == w.Count() && r.wrSeq == w.wrSeq && w.rdSeq <= r.rdSeq
            && (forall t :: r.Has(t) <==> w.Has(t) && t !in acks)
            && (forall t | r.Has(t) :: r.At(t) == w.At(t))
    decreases |acks|
  {
    if acks != [] {
      var init, s := acks[..|acks| - 1], Last(acks);
      AckAllExact(w, init);
      assert acks == init + [s];
      ProcessAckExact(AckAll(w, init), s);
    }
  }

  // ---- Transmitting ----

  datatype Sent = Sent(slot: int, pkt: Packet)

  datatype TxRun = TxRun(w: PacketQ, out: seq<Sent>, err: EtcpError)

  // One iteration of the loop; stop says that it returns err to the caller.
  datatype TxStep = TxStep(w: PacketQ, out: seq<Sent>, stop: bool, err: EtcpError)

  function MarkSent(p: Packet): Packet {
    if p.kind == KindDat
    then p.(txState := TxRdy, dat := p.dat.(txAttempts := (p.dat.txAttempts + 1) % TWO_TO_THE_16))
    else p.(txState := TxRdy)
  }

  // A packet that is not kept for an acknowledgement once it is on the wire.
  predicate OneShot(p: Packet) { p.kind == KindAck || (p.kind == KindDat && p.dat.noAck) }

  // The queue after the packet of slot i is on the wire.
  function AfterSending(w: PacketQ, i: int): (v: PacketQ)
    requires w.Inv() && w.Has(i)
    ensures v.Inv() && v.wrSeq == w.wrSeq && w.rdSeq <= v.rdSeq
  {
    var p := w.At(i).buff;
    var w' := w.Put(i, MarkSent(p));
    if OneShot(p) then Release(w', i).0 else w'
  }

  function TxAt(w: PacketQ, i: int, hw: int -> bool): (r: TxStep)
    requires w.Inv()
    ensures r.w.Inv() && r.w.wrSeq == w.wrSeq && w.rdSeq <= r.w.rdSeq && (r.stop ==> r.err != NoError)
  {
    var e := GetRd(w, i);
    if e == WrongSlot then TxStep(w, [], false, NoError)
    else if e != NoErr then TxStep(w, [], true, CqErr)
    else
      var p := w.At(i).buff;
      if p.txState == TxDrp then TxStep(Release(w, i).0, [], false, NoError)
      else if p.txState != TxNow then TxStep(w, [], false, NoError)
      else if p.kind == KindNone then TxStep(w.Put(i, p.(txState := TxRdy)), [], true, Fatal)
      else if !hw(i) then TxStep(w.Put(i, p.(txState := TxRdy)), [], true, TryAgain)
      else TxStep(AfterSending(w, i), [Sent(i, p)], false, NoError)
  }

  /** The loop of doEtcpNetTx from position i on.  Every release moves the bounds the next
      iteration reads; hw says whether the network takes the packet of a slot. */
  function NetTx(w: PacketQ, i: int, maxSlots: nat, hw: int -> bool, out: seq<Sent>): TxRun
    requires w.Inv()
    decreases w.wrSeq + 1 - i
  {
    if i >= w.rdMax || i >= w.rdSeq + maxSlots then TxRun(w, out, NoError)
    else
      var s := TxAt(w, i, hw);
      if s.stop then TxRun(s.w, out + s.out, s.err)
      else NetTx(s.w, i + 1, maxSlots, hw, out + s.out)
  }

  // A packet that is ready to be sent again, after n attempts.
  function Ready(p: Packet, n: nat): Packet { p.(txState := TxRdy, dat := p.dat.(txAttempts := n)) }

  // How the transmitter may change a packet: one that is to be sent is made ready, and the
  // attempt is counted unless it fails.
  predicate SameMessage(p: Packet, q: Packet) {
    q == p || (p.txState == TxNow && q in {Ready(p, p.dat.txAttempts), Ready(p, (p.dat.txAttempts + 1) % 0x1_0000)})
  }

  // A packet that one pass of the transmitter may free.
  predicate Expendable(p: Packet) {
    p.txState == TxDrp || (p.txState == TxNow && OneShot(p))
  }

  // What a pass over the positions from i to j leaves of the queue.
  ghost predicate Keeps(w: PacketQ, w': PacketQ, i: int, j: int) {
    && w'.Inv() && w'.Count() == w.Count() && w'.wrSeq == w.wrSeq && w.rdSeq <= w'.rdSeq
    && (forall t | w'.Has(t) :: w.Has(t) && SameMessage(w.At(t).buff, w'.At(t).buff))
    && (forall t | w.Has(t) && !w'.Has(t) :: i <= t < j && Expendable(w.At(t).buff))
    && (forall t | w.Has(t) && !(i <= t < j) :: w'.Has(t) && w'.At(t) == w.At(t))
  }

  // What such a pass sends: marked packets only, in order, each at most once.
  ghost predicate Sends(w: PacketQ, i: int, j: int, out: seq<Sent>) {
    && (forall k | 0 <= k < |out| ::
          && i <= out[k].slot < j && w.Has(out[k].slot)
          && out[k].pkt == w.At(out[k].slot).buff && out[k].pkt.txState == TxNow)
    && (forall k, l | 0 <= k < l < |out| :: out[k].slot < out[l].slot)
  }

  // Nothing in the positions from i to j was overlooked.
  ghost predicate Complete(w: PacketQ, w': PacketQ, i: int, j: int, out: seq<Sent>) {
    forall t | i <= t < j && w.Has(t) ::
      && (w.At(t).buff.txState == TxNow ==> Sent(t, w.At(t).buff) in out)
      && (w.At(t).buff.txState == TxDrp ==> !w'.Has(t))
  }

  lemma PutKeeps(w: PacketQ, i: int, x: Packet)
    requires w.Inv() && w.Has(i) && SameMessage(w.At(i).buff, x)
    ensures Keeps(w, w.Put(i, x), i, i + 1)
  {
    assert forall t :: w.Put(i, x).Has(t) <==> w.Has(t);
  }

  lemma KeepsInv(w: PacketQ, w': PacketQ, i: int)
    requires Keeps(w, w', i, i + 1)
    ensures w'.Inv()
  {
  }

  lemma SendKeeps(w: PacketQ, i: int)
    requires w.Inv() && w.Has(i) && w.At(i).buff.txState == TxNow
    ensures var p := w.At(i).buff;
            var w' := w.Put(i, MarkSent(p));
            Keeps(w, if OneShot(p) then Release(w', i).0 else w', i, i + 1)
  {
    hide Release, Window.Inv;
    var p := w.At(i).buff;
    var w' := w.Put(i, MarkSent(p));
    PutKeeps(w, i, MarkSent(p));
    if OneShot(p) {
      KeepsInv(w, w', i);
      ReleaseHas(w', i);
      var r := Release(w', i).0;
      assert forall t | r.Has(t) :: w'.Has(t) && w.Has(t);
      assert forall t | w.Has(t) && t != i :: w'.Has(t) && r.Has(t) && r.At(t) == w.At(t);
    }
  }

  lemma DropKeeps(w: PacketQ, i: int)
    requires w.Inv() && w.Has(i) && w.At(i).buff.txState == TxDrp
    ensures Keeps(w, Release(w, i).0, i, i + 1) && !Release(w, i).0.Has(i)
  {
    ReleaseHas(w, i);
  }

  lemma TxAtFacts(w: PacketQ, i: int, hw: int -> bool)
    requires w.Inv()
    ensures var s := TxAt(w, i, hw);
            && Keeps(w, s.w, i, i + 1)
            && Sends(w, i, i + 1, s.out)
            && (!s.stop ==> Complete(w, s.w, i, i + 1, s.out))
  {
    hide Release;
    if w.Has(i) {
      var p := w.At(i).buff;
      if p.txState == TxDrp {
        DropKeeps(w, i);
      } else if p.txState == TxNow {
        PutKeeps(w, i, p.(txState := TxRdy));
        SendKeeps(w, i);
      }
    }
  }

  lemma KeepsTrans(w: PacketQ, m: PacketQ, r: PacketQ, i: int, j: int)
    requires w.Inv() && i < j && Keeps(w, m, i, i + 1) && Keeps(m, r, i + 1, j)
    ensures Keeps(w, r, i, j)
  {
    forall t | r.Has(t) ensures w.Has(t) && SameMessage(w.At(t).buff, r.At(t).buff) {
      assert m.Has(t);
    }
    forall t | w.Has(t) && !r.Has(t) ensures i <= t < j && Expendable(w.At(t).buff) {
      if t != i { assert m.Has(t) && m.At(t) == w.At(t); }
    }
    forall t | w.Has(t) && !(i <= t < j) ensures r.Has(t) && r.At(t) == w.At(t) {
      assert m.Has(t);
    }
  }

  lemma SendsAppend(w: PacketQ, m: PacketQ, i: int, j: int, now: seq<Sent>, later: seq<Sent>)
    requires i < j && Keeps(w, m, i, i + 1) && Sends(w, i, i + 1, now) && Sends(m, i + 1, j, later)
    ensures Sends(w, i, j, now + later)
  {
    forall k | 0 <= k < |later|
      ensures w.Has(later[k].slot) && later[k].pkt == w.At(later[k].slot).buff
    {
      assert m.Has(later[k].slot);
    }
  }

  lemma CompleteAppend(w: PacketQ, m: PacketQ, r: PacketQ, i: int, j: int, lim: int, lim': int,
                       now: seq<Sent>, later: seq<Sent>)
    requires lim <= lim' && Keeps(w, m, i, i + 1) && Keeps(m, r, i + 1, j)
    requires Complete(w, m, i, i + 1, now) && Complete(m, r, i + 1, lim', later)
    ensures Complete(w, r, i, lim, now + later)
  {
    forall t | i <= t < lim && w.Has(t)
      ensures w.At(t).buff.txState == TxNow ==> Sent(t, w.At(t).buff) in now + later
      ensures w.At(t).buff.txState == TxDrp ==> !r.Has(t)
    {
      if t != i { assert m.Has(t) && m.At(t) == w.At(t); }
    }
  }

  /** What one call leaves of the queue, on whichever path it returns: every packet that is
      not expendable is kept, with nothing but its transmission bookkeeping changed. */
  lemma {:induction false} NetTxKeeps(w: PacketQ, i: int, maxSlots: nat, hw: int -> bool, out: seq<Sent>)
    requires w.Inv()
    ensures Keeps(w, NetTx(w, i, maxSlots, hw, out).w, i, Max(i, w.wrSeq + 1))
    decreases w.wrSeq + 1 - i
  {
    hide TxAt;
    if i < w.rdMax && i < w.rdSeq + maxSlots {
      var s := TxAt(w, i, hw);
      TxAtFacts(w, i, hw);
      if !s.stop {
        NetTxKeeps(s.w, i + 1, maxSlots, hw, out + s.out);
        KeepsTrans(w, s.w, NetTx(w, i, maxSlots, hw, out).w, i, w.wrSeq + 1);
      }
    }
  }

  /** What one call sends: marked packets only, as they stood in the queue, in increasing
      order and each at most once, although its releases move the bounds of its own loop. */
  lemma {:induction false} NetTxSends(w: PacketQ, i: int, maxSlots: nat, hw: int -> bool, out: seq<Sent>)
    requires w.Inv()
    ensures var r := NetTx(w, i, maxSlots, hw, out);
            out <= r.out && Sends(w, i, Max(i, w.wrSeq + 1), r.out[|out|..])
    decreases w.wrSeq + 1 - i
  {
    hide TxAt, Keeps, Complete;
    var r := NetTx(w, i, maxSlots, hw, out);
    if i < w.rdMax && i < w.rdSeq + maxSlots {
      var s := TxAt(w, i, hw);
      TxAtFacts(w, i, hw);
      if s.stop {
        assert r.out[|out|..] == s.out;
      } else {
        NetTxSends(s.w, i + 1, maxSlots, hw, out + s.out);
        var later := r.out[|out + s.out|..];
        assert r.out[|out|..] == s.out + later;
        SendsAppend(w, s.w, i, w.wrSeq + 1, s.out, later);
      }
    }
  }

  /** A call that reports no error has sent every marked packet of the slots it was allowed
      to look at, and has freed every dropped one. */
  lemma {:induction false} NetTxComplete(w: PacketQ, i: int, maxSlots: nat, hw: int -> bool, out: seq<Sent>)
    requires w.Inv() && NetTx(w, i, maxSlots, hw, out).err == NoError
    ensures var r := NetTx(w, i, maxSlots, hw, out);
            out <= r.out && Complete(w, r.w, i, Min(w.wrSeq, w.rdSeq + maxSlots), r.out[|out|..])
    decreases w.wrSeq + 1 - i
  {
    hide TxAt, Keeps, Sends;
    var r := NetTx(w, i, maxSlots, hw, out);
    if i < w.rdMax && i < w.rdSeq + maxSlots {
      var s := TxAt(w, i, hw);
      TxAtFacts(w, i, hw);
      NetTxComplete(s.w, i + 1, maxSlots, hw, out + s.out);
      NetTxKeeps(s.w, i + 1, maxSlots, hw, out + s.out);
      var later := r.out[|out + s.out|..];
      assert r.out[|out|..] == s.out + later;
      CompleteAppend(w, s.w, r.w, i, Max(i + 1, w.wrSeq + 1), Min(w.wrSeq, w.rdSeq + maxSlots),
                     Min(w.wrSeq, s.w.rdSeq + maxSlots), s.out, later);
    }
  }

  // The end of what a pass from i may have looked at, told from the edges it leaves.
  function LooksTo(v: PacketQ, i: int, maxSlots: nat): int { Max(i, Min(v.wrSeq + 1, v.rdSeq + maxSlots)) }

  /** How far one call goes: it neither sends nor frees nor changes a packet that lies maxSlots or
      more ahead of the read edge at its end. */
  lemma {:induction false} NetTxReach(w: PacketQ, i: int, maxSlots: nat, hw: int -> bool, out: seq<Sent>)
    requires w.Inv()
    ensures var r := NetTx(w, i, maxSlots, hw, out);
            && Keeps(w, r.w, i, LooksTo(r.w, i, maxSlots))
            && out <= r.out && Sends(w, i, LooksTo(r.w, i, maxSlots), r.out[|out|..])
    decreases w.wrSeq + 1 - i
  {
    hide TxAt, Keeps, Sends, Complete, Window.Inv;
    var r := NetTx(w, i, maxSlots, hw, out);
    Bounds(w);
    NetTxKeeps(w, i, maxSlots, hw, out);
    KeepsEdges(w, r.w, i, Max(i, w.wrSeq + 1));
    LongerReach(w, w, i, i, LooksTo(w, i, maxSlots), []);
    assert out[|out|..] == [];
    if LooksAt(w, i, maxSlots) {
      var s := TxAt(w, i, hw);
      TxAtFacts(w, i, hw);
      var j := LooksTo(r.w, i, maxSlots);
      assert j > i;
      if s.stop {
        assert r.out[|out|..] == s.out;
        LongerReach(w, s.w, i, i + 1, j, s.out);
      } else {
        NetTxReach(s.w, i + 1, maxSlots, hw, out + s.out);
        var later := r.out[|out + s.out|..];
        assert r.out[|out|..] == s.out + later;
        var j' := LooksTo(r.w, i + 1, maxSlots);
        KeepsTrans(w, s.w, r.w, i, j');
        SendsAppend(w, s.w, i, j', s.out, later);
        assert j' == j;
      }
    }
  }

  lemma KeepsEdges(w: PacketQ, v: PacketQ, i: int, j: int)
    requires Keeps(w, v, i, j)
    ensures v.Inv() && v.wrSeq == w.wrSeq && v.rdSeq >= w.rdSeq
  {
  }

  lemma LongerReach(w: PacketQ, v: PacketQ, i: int, j: int, j': int, out: seq<Sent>)
    requires w.Inv() && ((Keeps(w, v, i, j) && Sends(w, i, j, out)) || (v == w && out == [])) && j <= j'
    ensures Keeps(w, v, i, j') && Sends(w, i, j', out)
  {
  }

  // ---- The bookkeeping of a pass ----

  // Where the call stands before slot i, with its bounds re-read.
  predicate LooksAt(w: PacketQ, i: int, maxSlots: nat) {
    i < w.rdMax && i < w.rdSeq + maxSlots
  }

  /** What a pass over the positions from i to j does to the transmission state and the attempts
      of the packets it leaves in the queue.  Those it has sent are ready again, with one attempt
      more; they are kept if and only if they wait for an acknowledgement.  A packet that could
      not be sent is ready again, and ends the pass.  All others are as they were. */
  ghost predicate Books(w: PacketQ, v: PacketQ, i: int, j: int, out: seq<Sent>, stuck: int, hw: int -> bool) {
    && (forall t | v.Has(t) && t != stuck && (forall o | o in out :: o.slot != t) :: w.Has(t) && v.At(t) == w.At(t))
    && (forall o | o in out ::
          && i <= o.slot < j && o.slot != stuck && w.Has(o.slot) && o.pkt == w.At(o.slot).buff
          && (v.Has(o.slot) <==> o.pkt.kind == KindDat && !o.pkt.dat.noAck)
          && (v.Has(o.slot) ==> v.At(o.slot) == w.At(o.slot).(buff := Ready(o.pkt, (o.pkt.dat.txAttempts + 1) % 0x1_0000))))
    && (stuck >= 0 ==>
          && i <= stuck < j && w.Has(stuck) && v.Has(stuck)
          && var p := w.At(stuck).buff;
          && p.txState == TxNow && (p.kind == KindNone || !hw(stuck))
          && v.At(stuck) == w.At(stuck).(buff := Ready(p, p.dat.txAttempts)))
  }

  // The position of the packet that ends iteration i, or -1.
  function StuckAt(w: PacketQ, i: int, hw: int -> bool): int
    requires w.Inv()
  {
    if TxAt(w, i, hw).stop && w.Has(i) then i else -1
  }

  lemma SentBooks(w: PacketQ, i: int, hw: int -> bool)
    requires w.Inv() && w.Has(i) && w.At(i).buff.kind != KindNone
    ensures Books(w, AfterSending(w, i), i, i + 1, [Sent(i, w.At(i).buff)], -1, hw)
  {
    hide Release, Window.Inv, Window.Put;
    var p := w.At(i).buff;
    SentEdge(w, i, MarkSent(p));
    PutAt(w, i, MarkSent(p));
    ReleaseHas(w.Put(i, MarkSent(p)), i);
  }

  lemma PutAt(w: PacketQ, i: int, x: Packet)
    requires w.Inv() && w.Has(i)
    ensures w.InRange(i)
    ensures var v := w.Put(i, x);
            && v.Inv() && (forall t :: v.Has(t) <==> w.Has(t))
            && (forall t | w.Has(t) && t != i :: v.Has(t) && v.At(t) == w.At(t))
            && v.Has(i) && v.At(i) == w.At(i).(buff := x)
  {
    SentEdge(w, i, x);
    assert forall t :: w.Put(i, x).Has(t) <==> w.Has(t);
  }

  lemma StuckBooks(w: PacketQ, i: int, hw: int -> bool)
    requires w.Inv() && w.Has(i) && i >= 0
    requires var p := w.At(i).buff; p.txState == TxNow && (p.kind == KindNone || !hw(i))
    ensures w.InRange(i) && Books(w, w.Put(i, w.At(i).buff.(txState := TxRdy)), i, i + 1, [], i, hw)
  {
    PutAt(w, i, w.At(i).buff.(txState := TxRdy));
    hide Window.Inv, Window.Put;
  }

  lemma DropBooks(w: PacketQ, i: int, hw: int -> bool)
    requires w.Inv()
    ensures Books(w, Release(w, i).0, i, i + 1, [], -1, hw) && Books(w, w, i, i + 1, [], -1, hw)
  {
    ReleaseHas(w, i);
    hide Release, Window.Inv;
  }

  lemma TxAtCodes(w: PacketQ, i: int, hw: int -> bool)
    requires w.Inv() && w.rdSeq <= i
    ensures var s := TxAt(w, i, hw);
            && (s.stop <==> s.err != NoError)
            && (s.err == TryAgain ==> w.Has(i) && w.At(i).buff.kind != KindNone)
            && (s.err == Fatal ==> w.Has(i) && w.At(i).buff.kind == KindNone)
            && (s.err == CqErr <==> !w.InRange(i))
            && s.err in {NoError, TryAgain, Fatal, CqErr}
  {
    hide Release, Window.Inv, AfterSending;
  }

  lemma TxAtBooks(w: PacketQ, i: int, hw: int -> bool)
    requires w.Inv() && w.rdSeq <= i
    ensures var s := TxAt(w, i, hw); Books(w, s.w, i, i + 1, s.out, StuckAt(w, i, hw), hw)
  {
    hide Release, Window.Inv, AfterSending, Books;
    DropBooks(w, i, hw);
    if w.Has(i) {
      var p := w.At(i).buff;
      if p.txState == TxNow {
        if p.kind == KindNone || !hw(i) { StuckBooks(w, i, hw); } else { SentBooks(w, i, hw); }
      }
    }
  }

  lemma BooksTrans(w: PacketQ, m: PacketQ, r: PacketQ, i: int, j: int, now: seq<Sent>, later: seq<Sent>, stuck: int,
                   hw: int -> bool)
    requires w.Inv() && i < j && Keeps(w, m, i, i + 1) && Keeps(m, r, i + 1, j)
    requires Books(w, m, i, i + 1, now, -1, hw) && Books(m, r, i + 1, j, later, stuck, hw)
    ensures Books(w, r, i, j, now + later, stuck, hw)
    ensures stuck >= 0 ==> m.Has(stuck) && w.Has(stuck) && m.At(stuck) == w.At(stuck)
  {
    hide SameMessage, Expendable, Ready, Window.Inv;
    forall t | r.Has(t) && t != stuck && (forall o | o in now + later :: o.slot != t)
      ensures w.Has(t) && r.At(t) == w.At(t)
    {
      assert forall o | o in now :: o in now + later;
      assert forall o | o in later :: o in now + later;
      assert m.Has(t);
    }
    forall o | o in now + later
      ensures i <= o.slot < j && o.slot != stuck && w.Has(o.slot) && o.pkt == w.At(o.slot).buff
      ensures r.Has(o.slot) <==> o.pkt.kind == KindDat && !o.pkt.dat.noAck
      ensures r.Has(o.slot) ==> r.At(o.slot) == w.At(o.slot).(buff := Ready(o.pkt, (o.pkt.dat.txAttempts + 1) % 0x1_0000))
    {
      if o in now {
        assert o.slot == i;
        assert r.Has(i) <==> m.Has(i);
      } else {
        assert o in later && m.Has(o.slot) && w.Has(o.slot) && m.At(o.slot) == w.At(o.slot);
      }
    }
    if stuck >= 0 { assert m.Has(stuck) && w.Has(stuck) && m.At(stuck) == w.At(stuck); }
  }

  /** The whole call: what it leaves of each packet, and why it ends. */
  lemma {:induction false} NetTxBooks(w: PacketQ, i: int, maxSlots: nat, hw: int -> bool, out: seq<Sent>)
    returns (stuck: int)
    requires w.Inv() && w.rdSeq <= i
    ensures var r := NetTx(w, i, maxSlots, hw, out);
            && out <= r.out && Books(w, r.w, i, Max(i, w.wrSeq + 1), r.out[|out|..], stuck, hw)
            && (r.err in {NoError, CqErr} <==> stuck == -1) && stuck >= -1
            && (r.err == TryAgain ==> w.Has(stuck) && w.At(stuck).buff.kind != KindNone)
            && (r.err == Fatal ==> w.Has(stuck) && w.At(stuck).buff.kind == KindNone)
            && r.err in {NoError, TryAgain, Fatal, CqErr}
    decreases w.wrSeq + 1 - i
  {
    hide TxAt, Sends, Complete, Window.Inv, Books, Keeps, StuckAt;
    var r := NetTx(w, i, maxSlots, hw, out);
    stuck := -1;
    NoBooks(w, i, hw);
    Bounds(w);
    if i < w.rdMax && i < w.rdSeq + maxSlots {
      var s := TxAt(w, i, hw);
      TxAtBooks(w, i, hw);
      TxAtCodes(w, i, hw);
      TxAtFacts(w, i, hw);
      StuckIs(w, i, hw);
      if s.stop {
        stuck := StuckAt(w, i, hw);
        assert r.out[|out|..] == s.out;
        BooksLonger(w, s.w, i, i + 1, w.wrSeq + 1, s.out, stuck, hw);
      } else if s.w.rdSeq <= i + 1 {
        stuck := NetTxBooks(s.w, i + 1, maxSlots, hw, out + s.out);
        NetTxKeeps(s.w, i + 1, maxSlots, hw, out + s.out);
        var later := r.out[|out + s.out|..];
        assert r.out[|out|..] == s.out + later;
        BooksTrans(w, s.w, r.w, i, w.wrSeq + 1, s.out, later, stuck, hw);
      } else {
        Stumbled(s.w, i + 1, maxSlots, hw, out + s.out);
        assert r.out[|out|..] == s.out;
        BooksLonger(w, s.w, i, i + 1, w.wrSeq + 1, s.out, -1, hw);
      }
    }
    assert out[|out|..] == [];
  }

  lemma Bounds(w: PacketQ)
    requires w.Inv()
    ensures w.rdMax <= w.wrSeq + 1
  {
  }

  lemma NoBooks(w: PacketQ, i: int, hw: int -> bool)
    ensures Books(w, w, i, i, [], -1, hw) && Books(w, w, i, Max(i, w.wrSeq + 1), [], -1, hw)
  {
  }

  lemma BooksLonger(w: PacketQ, v: PacketQ, i: int, j: int, j': int, out: seq<Sent>, stuck: int, hw: int -> bool)
    requires Books(w, v, i, j, out, stuck, hw) && j <= j'
    ensures Books(w, v, i, j', out, stuck, hw)
  {
    hide Ready;
  }

  lemma StuckIs(w: PacketQ, i: int, hw: int -> bool)
    requires w.Inv() && w.rdSeq <= i
    ensures StuckAt(w, i, hw) == if TxAt(w, i, hw).stop && w.Has(i) then i else -1
    ensures w.Has(i) ==> w.InRange(i) && i >= 0
    ensures i < w.rdMax ==> w.InRange(i)
  {
    hide TxAt;
  }

  // The edge has moved past the next position: the call ends there.
  lemma Stumbled(w: PacketQ, i: int, maxSlots: nat, hw: int -> bool, out: seq<Sent>)
    requires w.Inv() && i < w.rdSeq
    ensures NetTx(w, i, maxSlots, hw, out) == TxRun(w, out, if LooksAt(w, i, maxSlots) then CqErr else NoError)
  {
    hide Release, Window.Inv;
    assert out + [] == out;
  }

  /** When a call stumbles over its own release: having dealt with slot i it finds slot i + 1
      behind the window exactly when it has released the packet at the read edge in front of
      a hole, for then the edge has moved past the hole.  It returns early with an error, and
      no other slot it looks at is out of range. */
  lemma StumblesExact(w: PacketQ, i: int, maxSlots: nat, hw: int -> bool)
    requires w.Inv() && w.rdSeq <= i && LooksAt(w, i, maxSlots) && !TxAt(w, i, hw).stop
    ensures var v := TxAt(w, i, hw).w;
            LooksAt(v, i + 1, maxSlots) && TxAt(v, i + 1, hw).err == CqErr
            <==> i == w.rdSeq && w.Has(i) && !v.Has(i) && i + 1 < w.wrSeq && !w.At(i + 1).valid
  {
    hide TxAt;
    var v := TxAt(w, i, hw).w;
    TxAtEdge(w, i, hw);
    RangeError(v, i + 1, hw);
    ReadBounds(v);
    ReadBounds(w);
  }

  lemma ReadBounds(w: PacketQ)
    requires w.Inv()
    ensures w.rdMax <= w.rdSeq + w.Count() && w.wrSeq <= w.rdMax <= w.wrSeq + 1
  {
  }

  lemma RangeError(w: PacketQ, i: int, hw: int -> bool)
    requires w.Inv()
    ensures TxAt(w, i, hw).err == CqErr <==> !w.InRange(i)
  {
    hide Release;
  }

  // How far the read edge moves when slot i is dealt with.
  lemma TxAtEdge(w: PacketQ, i: int, hw: int -> bool)
    requires w.Inv() && w.rdSeq <= i < w.rdMax && !TxAt(w, i, hw).stop
    ensures var v := TxAt(w, i, hw).w;
            && v.Inv() && v.Count() == w.Count() && v.wrSeq == w.wrSeq && v.rdSeq >= w.rdSeq
            && (v.rdSeq > i + 1 <==> i == w.rdSeq && w.Has(i) && !v.Has(i) && i + 1 < w.wrSeq && !w.At(i + 1).valid)
            && (v.rdSeq > w.rdSeq ==> v.rdMax == v.wrSeq + 1)
  {
    TxAtQueue(w, i, hw);
    KeptEdge(w);
    hide TxAt, Release, Window.Inv, Window.Put, Window.Has;
    var v := TxAt(w, i, hw).w;
    if w.Has(i) {
      var p := w.At(i).buff;
      if v == Release(w, i).0 { ReleasedEdge(w, i); }
      if v == Release(w.Put(i, MarkSent(p)), i).0 {
        SentEdge(w, i, MarkSent(p));
        ReleasedEdge(w.Put(i, MarkSent(p)), i);
      }
      SentEdge(w, i, MarkSent(p));
    }
  }

  // What becomes of the queue when slot i is dealt with.
  lemma TxAtQueue(w: PacketQ, i: int, hw: int -> bool)
    requires w.Inv() && w.rdSeq <= i < w.rdMax && !TxAt(w, i, hw).stop
    ensures var v := TxAt(w, i, hw).w;
            || v == w
            || (w.InRange(i) && w.Has(i)
                && (v == w.Put(i, MarkSent(w.At(i).buff))
                    || (w.Put(i, MarkSent(w.At(i).buff)).Inv() && v == Release(w.Put(i, MarkSent(w.At(i).buff)), i).0)
                    || v == Release(w, i).0))
  {
    if w.Has(i) { SentEdge(w, i, MarkSent(w.At(i).buff)); }
    hide Release, Window.Inv, Window.Put;
  }

  lemma SentEdge(w: PacketQ, i: int, x: Packet)
    requires w.Inv() && w.Has(i)
    ensures w.InRange(i)
    ensures var u := w.Put(i, x);
            && u.Inv() && u.Has(i) && u.Count() == w.Count() && u.wrSeq == w.wrSeq && u.rdSeq == w.rdSeq
            && (i + 1 < w.wrSeq ==> u.InRange(i + 1) && w.InRange(i + 1) && u.At(i + 1).valid == w.At(i + 1).valid)
  {
  }

  lemma KeptEdge(w: PacketQ)
    requires w.Inv()
    ensures w.rdSeq <= w.wrSeq <= w.rdSeq + w.Count()
  {
  }

  lemma ReleasedEdge(w: PacketQ, i: int)
    requires w.Inv() && w.Has(i)
    ensures var v := Release(w, i).0;
            && !v.Has(i)
            && (v.rdSeq > i + 1 <==> i == w.rdSeq && i + 1 < w.wrSeq && !w.At(i + 1).valid)
            && (v.rdSeq > w.rdSeq ==> v.rdMax == v.wrSeq + 1)
  {
    hide Release;
    ReleaseFacts(w, i);
    ReleaseHas(w, i);
    EdgeAfter(w, i, Release(w, i).0);
  }

  // The read edge after slot i has been released.
  lemma EdgeAfter(w: PacketQ, i: int, v: PacketQ)
    requires w.Inv() && w.Has(i) && v.Inv() && v.wrSeq == w.wrSeq && v.Count() == w.Count() && w.rdSeq <= v.rdSeq
    requires forall t :: v.Has(t) <==> w.Has(t) && t != i
    requires forall t | w.rdSeq <= t < v.rdSeq :: t < w.wrSeq && (t == i || !w.At(t).valid)
    ensures v.rdSeq > i + 1 <==> i == w.rdSeq && i + 1 < w.wrSeq && !w.At(i + 1).valid
  {
    if v.rdSeq > w.rdSeq {
      assert w.rdSeq < w.wrSeq;
      assert i == w.rdSeq;
      if i + 1 < w.wrSeq {
        assert w.At(i + 1).valid ==> v.Has(i + 1);
        if v.rdSeq == i + 1 { assert v.Has(i + 1); }
      }
    }
  }

  // ---- Two passes ----

  // Every packet that a pass may look at waits for transmission control.
  ghost predicate Quiet(w: PacketQ, maxSlots: nat) {
    forall t | w.Has(t) && LooksAt(w, t, maxSlots) :: w.At(t).buff.txState == TxRdy
  }

  lemma TxAtSettles(w: PacketQ, i: int, hw: int -> bool)
    requires w.Inv() && !TxAt(w, i, hw).stop && forall t | w.Has(t) && t < i :: w.At(t).buff.txState == TxRdy
    ensures var v := TxAt(w, i, hw).w; forall t | v.Has(t) && t < i + 1 :: v.At(t).buff.txState == TxRdy
  {
    TxAtFacts(w, i, hw);
    if w.Has(i) { SettlesHere(w, i, hw); }
    hide TxAt, Window.Inv, SameMessage, Sends;
    var v := TxAt(w, i, hw).w;
    forall t | v.Has(t) && t < i + 1 ensures v.At(t).buff.txState == TxRdy {
      assert w.Has(t);
      assert t != i ==> v.At(t) == w.At(t);
    }
  }

  lemma SettlesHere(w: PacketQ, i: int, hw: int -> bool)
    requires w.Inv() && w.Has(i) && !TxAt(w, i, hw).stop
    ensures var v := TxAt(w, i, hw).w; v.Has(i) ==> v.At(i).buff.txState == TxRdy
  {
    hide Release, Window.Inv, Window.Put;
    var p := w.At(i).buff;
    ReleaseHas(w, i);
    if p.txState == TxNow {
      PutAt(w, i, MarkSent(p));
      ReleaseHas(w.Put(i, MarkSent(p)), i);
    }
  }

  // A call that reports no error has dealt with every packet that another one could look at.
  lemma {:induction false} NetTxSettles(w: PacketQ, i: int, maxSlots: nat, hw: int -> bool, out: seq<Sent>)
    requires w.Inv() && NetTx(w, i, maxSlots, hw, out).err == NoError
    requires forall t | w.Has(t) && t < i :: w.At(t).buff.txState == TxRdy
    ensures Quiet(NetTx(w, i, maxSlots, hw, out).w, maxSlots)
    decreases w.wrSeq + 1 - i
  {
    hide TxAt, Window.Inv;
    Bounds(w);
    if LooksAt(w, i, maxSlots) {
      TxAtSettles(w, i, hw);
      var s := TxAt(w, i, hw);
      if !s.stop { NetTxSettles(s.w, i + 1, maxSlots, hw, out + s.out); }
    }
  }

  // A call that finds nothing to do does nothing.
  lemma {:induction false} QuietCall(w: PacketQ, i: int, maxSlots: nat, hw: int -> bool, out: seq<Sent>)
    requires w.Inv() && w.rdSeq <= i && Quiet(w, maxSlots)
    ensures NetTx(w, i, maxSlots, hw, out) == TxRun(w, out, NoError)
    decreases w.wrSeq + 1 - i
  {
    Bounds(w);
    if LooksAt(w, i, maxSlots) {
      QuietAt(w, i, maxSlots, hw);
      hide TxAt, Window.Inv, Quiet;
      assert out + [] == out;
      QuietCall(w, i + 1, maxSlots, hw, out);
    }
  }

  lemma QuietAt(w: PacketQ, i: int, maxSlots: nat, hw: int -> bool)
    requires w.Inv() && w.rdSeq <= i && Quiet(w, maxSlots) && LooksAt(w, i, maxSlots)
    ensures TxAt(w, i, hw) == TxStep(w, [], false, NoError)
  {
    hide Release;
  }

  /** Nothing is sent twice on one mark: after a call that reports no error a second one, without
      new marks, sends nothing and changes nothing, whatever the network takes then. */
  lemma SecondCallSilent(w: PacketQ, maxSlots: nat, hw: int -> bool, hw2: int -> bool)
    requires w.Inv() && NetTx(w, w.rdSeq, maxSlots, hw, []).err == NoError
    ensures var v := NetTx(w, w.rdSeq, maxSlots, hw, []).w;
            v.Inv() && NetTx(v, v.rdSeq, maxSlots, hw2, []) == TxRun(v, [], NoError)
  {
    hide NetTx, Quiet;
    assert forall t | w.Has(t) :: t >= w.rdSeq;
    NetTxSettles(w, w.rdSeq, maxSlots, hw, []);
    NetTxKeeps(w, w.rdSeq, maxSlots, hw, []);
    var v := NetTx(w, w.rdSeq, maxSlots, hw, []).w;
    QuietCall(v, v.rdSeq, maxSlots, hw2, []);
  }
}
