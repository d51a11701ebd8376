/** Queueing user data for transmission. */
module UserTx {
  import opened Basics
  import opened RingWindow
  import opened Packets
  import opened Sender
  import Bits

  // The bits of the header that formatting a packet does not write.
  predicate Clean(p: Packet) { !p.dat.ackSent && !p.dat.staleDat }

  // True of the contents of every slot, in use or not.
  ghost predicate AllBuffs<T>(w: Window<T>, p: T -> bool) {
    forall i | 0 <= i < |w.cells| :: p(w.cells[i].buff)
  }

  lemma PutBuffs<T>(w: Window<T>, s: int, x: T, p: T -> bool)
    requires AllBuffs(w, p) && w.InRange(s) && p(x)
    ensures AllBuffs(w.Put(s, x), p)
  {
  }

  lemma CommitBuffs<T>(w: Window<T>, s: int, len: int, p: T -> bool)
    requires AllBuffs(w, p) && w.rdSeq <= w.wrSeq <= w.rdSeq + w.Count()
    ensures AllBuffs(Commit(w, s, len).0, p)
  {
  }

  lemma ReleaseBuffs<T>(w: Window<T>, s: int, p: T -> bool)
    requires AllBuffs(w, p) && w.rdSeq <= w.wrSeq <= w.rdSeq + w.Count()
    ensures AllBuffs(Release(w, s).0, p)
  {
    if w.Has(s) {
      var v := Free(w, s);
      assert AllBuffs(v, p);
      var r, k := AdvRdSeq(v).0, FirstValid(v.cells, 0, v.wrSeq - v.rdSeq);
      assert k > 0 ==> r.cells == v.cells[k..] + v.cells[..k];
    }
  }

  lemma {:induction false} AckAllBuffs(w: PacketQ, acks: seq<int>, p: Packet -> bool)
    requires w.Inv() && AllBuffs(w, p)
    ensures AllBuffs(AckAll(w, acks), p)
    decreases |acks|
  {
    hide AllBuffs, Release, Window.Inv;
    if acks != [] {
      AckAllBuffs(w, acks[..|acks| - 1], p);
      AckBuffs(AckAll(w, acks[..|acks| - 1]), Last(acks), p);
    }
  }

  lemma AckBuffs(w: PacketQ, s: int, p: Packet -> bool)
    requires w.Inv() && AllBuffs(w, p)
    ensures AllBuffs(ProcessAck(w, s).0, p)
  {
    ReleaseBuffs(w, s, p);
    hide AllBuffs, Release;
  }

  lemma {:induction false} NetTxBuffs(w: PacketQ, i: int, maxSlots: nat, hw: int -> bool, out: seq<Sent>)
    requires w.Inv() && AllBuffs(w, Clean)
    ensures AllBuffs(NetTx(w, i, maxSlots, hw, out).w, Clean)
    decreases w.wrSeq + 1 - i
  {
    hide AllBuffs, TxAt, Window.Inv, Clean;
    ReadLimit(w);
    if i < w.rdMax && i < w.rdSeq + maxSlots {
      var s := TxAt(w, i, hw);
      TxAtBuffs(w, i, hw);
      if !s.stop { NetTxBuffs(s.w, i + 1, maxSlots, hw, out + s.out); }
    }
  }

  lemma ReadLimit(w: PacketQ)
    requires w.Inv()
    ensures w.rdMax <= w.wrSeq + 1
  {
  }

  lemma TxAtBuffs(w: PacketQ, i: int, hw: int -> bool)
    requires w.Inv() && AllBuffs(w, Clean)
    ensures AllBuffs(TxAt(w, i, hw).w, Clean)
  {
    if w.Has(i) {
      var p := w.cells[i - w.rdSeq].buff;
      assert Clean(p);
      PutBuffs(w, i, p.(txState := TxRdy), Clean);
      PutBuffs(w, i, MarkSent(p), Clean);
      ReleaseBuffs(w, i, Clean);
      ReleaseBuffs(w.Put(i, MarkSent(p)), i, Clean);
      hide AllBuffs, Release, Window.Put;
    }
  }

  // The packet formatted into a free slot: what was in the slot shows through where it is not
  // overwritten.  noAck is one of those bits; nothing in the source sets it, so it is left open.
  function NewDat(slot: Packet, seqNum: int, payload: Bytes, noAck: bool): Packet {
    slot.(txState := TxRdy, kind := KindDat,
          dat := slot.dat.(seqNum := seqNum, payload := payload, txAttempts := 0, noAck := noAck))
  }

  // Formatting one packet and committing it at the write edge.
  function AddDat(w: PacketQ, seqSnd: int, payload: Bytes, noAck: bool): (r: PacketQ)
    requires w.Inv() && w.wrSeq < w.rdSeq + w.Count()
    ensures r.Inv()
  {
    var w' := w.Put(w.wrSeq, NewDat(w.At(w.wrSeq).buff, seqSnd, payload, noAck));
    Commit(w', w.wrSeq, w.At(w.wrSeq).len).0
  }

  // queued collects the payloads of the packets.
  datatype SendRun = SendRun(w: PacketQ, seqSnd: int, bytesSent: nat, err: EtcpError, queued: seq<Bytes>)

  /** The loop of doEtcpUserTx; datSpace is what a slot has room for behind the headers.
      Every packet is filled from the start of the user's data. */
  function Send(w: PacketQ, seqSnd: int, data: Bytes, datSpace: int, noAck: bool, bytesSent: nat, queued: seq<Bytes>)
    : (r: SendRun)
    requires w.Inv()
    ensures r.w.Inv()
    decreases |data| - bytesSent
  {
    if bytesSent >= |data| then SendRun(w, seqSnd, bytesSent, NoError, queued)
    else if w.wrSeq == w.rdSeq + w.Count() then SendRun(w, seqSnd, bytesSent, TryAgain, queued)
    else if datSpace < 1 then SendRun(w, seqSnd, |data|, Fatal, queued)
    else
      var payload := Take(data, datSpace);
      Send(AddDat(w, seqSnd, payload, noAck), seqSnd + 1, data, datSpace, noAck, bytesSent + |payload|,
           queued + [payload])
  }

  // What one packet adds to the queue.
  ghost predicate Adds(w: PacketQ, w': PacketQ, payload: Bytes, noAck: bool) {
    && Identity(w') && AllBuffs(w', Clean)
    && w'.Count() == w.Count() && w'.rdSeq == w.rdSeq && w'.wrSeq == w.wrSeq + 1
    && (forall t :: w'.Has(t) <==> w.Has(t) || t == w.wrSeq)
    && (forall t | w.Has(t) :: w'.At(t) == w.At(t))
    && w'.Has(w.wrSeq)
    && w'.At(w.wrSeq).buff.txState == TxRdy
    && w'.At(w.wrSeq).buff.dat == DatHdr(w.wrSeq, payload, 0, noAck, false, false)
  }

  lemma AddFacts(w: PacketQ, payload: Bytes, noAck: bool)
    requires Identity(w) && AllBuffs(w, Clean) && w.wrSeq < w.rdSeq + w.Count()
    ensures Adds(w, AddDat(w, w.wrSeq, payload, noAck), payload, noAck)
  {
    var s := w.wrSeq;
    var x := NewDat(w.At(s).buff, s, payload, noAck);
    assert Clean(w.cells[s - w.rdSeq].buff);
    PutBuffs(w, s, x, Clean);
    CommitBuffs(w.Put(s, x), s, w.At(s).len, Clean);
    AddWindow(w, x);
  }

  lemma AddWindow(w: PacketQ, x: Packet)
    requires Identity(w) && w.wrSeq < w.rdSeq + w.Count()
    requires x.kind == KindDat && x.dat.seqNum == w.wrSeq
    ensures var w' := Commit(w.Put(w.wrSeq, x), w.wrSeq, w.At(w.wrSeq).len).0;
            && Identity(w')
            && w'.Count() == w.Count() && w'.rdSeq == w.rdSeq && w'.wrSeq == w.wrSeq + 1
            && (forall t :: w'.Has(t) <==> w.Has(t) || t == w.wrSeq)
            && (forall t | w.Has(t) :: w'.At(t) == w.At(t))
            && w'.Has(w.wrSeq) && w'.At(w.wrSeq).buff == x
  {
    var s := w.wrSeq;
    var v := w.Put(s, x);
    CommitFacts(v, s, w.At(s).len);
    var w' := Commit(v, s, w.At(s).len).0;
    assert w'.At(s).valid;
    assert !v.Has(s + 1);
  }

  // What a call leaves of the queue after it has added the numbers from w.wrSeq to w'.wrSeq.
  ghost predicate Appends(w: PacketQ, w': PacketQ, payload: Bytes, noAck: bool) {
    && Identity(w') && AllBuffs(w', Clean)
    && w'.Count() == w.Count() && w'.rdSeq == w.rdSeq && w'.wrSeq >= w.wrSeq
    && (forall t :: w'.Has(t) <==> w.Has(t) || w.wrSeq <= t < w'.wrSeq)
    && (forall t | w.Has(t) :: w'.At(t) == w.At(t))
    && (forall t | w.wrSeq <= t < w'.wrSeq ::
          && w'.Has(t) && w'.At(t).buff.txState == TxRdy
          && w'.At(t).buff.dat == DatHdr(t, payload, 0, noAck, false, false))
  }

  lemma AppendsNone(w: PacketQ, payload: Bytes, noAck: bool)
    requires Identity(w) && AllBuffs(w, Clean)
    ensures w.Inv() && Appends(w, w, payload, noAck)
  {
  }

  lemma AppendsTrans(w: PacketQ, m: PacketQ, r: PacketQ, payload: Bytes, noAck: bool)
    requires Adds(w, m, payload, noAck) && Appends(m, r, payload, noAck)
    ensures Appends(w, r, payload, noAck)
  {
    hide Identity, AllBuffs, Window.Inv;
    forall t | w.wrSeq <= t < r.wrSeq
      ensures r.Has(t) && r.At(t).buff.txState == TxRdy && r.At(t).buff.dat == DatHdr(t, payload, 0, noAck, false, false)
    {
      if t == w.wrSeq { assert m.Has(t) && r.At(t) == m.At(t); }
    }
    forall t | w.Has(t) ensures r.Has(t) && r.At(t) == w.At(t) {
      assert m.Has(t);
    }
  }

  lemma OneMore(k: int, n: int)
    ensures n + k * n == (k + 1) * n
  {
  }

  function Copies(p: Bytes, k: nat): seq<Bytes> { seq(k, _ => p) }

  // The outcome of the loop, given what it has sent so far.
  ghost predicate Outcome(w: PacketQ, r: SendRun, data: Bytes, datSpace: int, bytesSent: nat, queued: seq<Bytes>) {
    var payload := if datSpace < 1 then [] else Take(data, datSpace);
    var n := |payload|;
    && r.seqSnd == r.w.wrSeq && r.w.wrSeq >= w.wrSeq
    && r.queued == queued + Copies(payload, r.w.wrSeq - w.wrSeq)
    && (r.err != Fatal ==> r.bytesSent == bytesSent + (r.w.wrSeq - w.wrSeq) * n)
    && (r.err == NoError ==> r.bytesSent >= |data| && (r.bytesSent == bytesSent || r.bytesSent < |data| + n))
    && (r.err == TryAgain ==> r.bytesSent < |data| && r.w.wrSeq == w.rdSeq + w.Count())
    && (r.err == Fatal <==> datSpace < 1 && bytesSent < |data| && w.wrSeq < w.rdSeq + w.Count())
    && (r.err == Fatal ==> r.w == w && r.bytesSent == |data|)
    && r.err in {NoError, TryAgain, Fatal}
  }

  lemma OutcomeStep(w: PacketQ, m: PacketQ, r: SendRun, data: Bytes, datSpace: int, bytesSent: nat, queued: seq<Bytes>)
    requires datSpace >= 1 && bytesSent < |data| && m.wrSeq == w.wrSeq + 1 && m.rdSeq == w.rdSeq && m.Count() == w.Count()
    requires var p := Take(data, datSpace); Outcome(m, r, data, datSpace, bytesSent + |p|, queued + [p])
    ensures Outcome(w, r, data, datSpace, bytesSent, queued)
  {
    hide Take;
    var p := Take(data, datSpace);
    OneMore(r.w.wrSeq - m.wrSeq, |p|);
    assert queued + [p] + Copies(p, r.w.wrSeq - m.wrSeq) == queued + Copies(p, r.w.wrSeq - w.wrSeq);
  }

  /** Every packet queued by one call is a fresh DAT numbered by the write edge, which the
      sequence counter follows, and carries the first bytes of the user's data.  The reported
      count is the number of packets times their size; a call stops early only when the
      queue is full or a slot has no room for a single byte. */
  lemma {:induction false} SendFacts(w: PacketQ, data: Bytes, datSpace: int, noAck: bool, bytesSent: nat, queued: seq<Bytes>)
    requires Identity(w) && AllBuffs(w, Clean)
    ensures w.Inv()
    ensures var r := Send(w, w.wrSeq, data, datSpace, noAck, bytesSent, queued);
            && Appends(w, r.w, if datSpace < 1 then [] else Take(data, datSpace), noAck)
            && Outcome(w, r, data, datSpace, bytesSent, queued)
    decreases |data| - bytesSent
  {
    hide Identity, AllBuffs, Appends, AddDat, Window.Inv, Clean, Adds;
    var payload := if datSpace < 1 then [] else Take(data, datSpace);
    AppendsNone(w, payload, noAck);
    assert queued + Copies(payload, 0) == queued;
    if bytesSent < |data| && w.wrSeq != w.rdSeq + w.Count() && datSpace >= 1 {
      EdgeBound(w);
      AddFacts(w, payload, noAck);
      var m := AddDat(w, w.wrSeq, payload, noAck);
      AddsIs(w, m, payload, noAck);
      SendFacts(m, data, datSpace, noAck, bytesSent + |payload|, queued + [payload]);
      var r := Send(w, w.wrSeq, data, datSpace, noAck, bytesSent, queued);
      AppendsTrans(w, m, r.w, payload, noAck);
      OutcomeStep(w, m, r, data, datSpace, bytesSent, queued);
    }
  }

  lemma EdgeBound(w: PacketQ)
    requires w.Inv()
    ensures w.wrSeq <= w.rdSeq + w.Count()
  {
  }

  lemma AddsIs(w: PacketQ, m: PacketQ, payload: Bytes, noAck: bool)
    requires Adds(w, m, payload, noAck)
    ensures Identity(m) && AllBuffs(m, Clean)
    ensures m.wrSeq == w.wrSeq + 1 && m.rdSeq == w.rdSeq && m.Count() == w.Count()
  {
  }

  // ---- What the packets of one call say together ----

  function Repeat(p: Bytes, k: nat): Bytes {
    if k == 0 then [] else Repeat(p, k - 1) + p
  }

  lemma {:induction false} RepeatLength(p: Bytes, k: nat)
    ensures |Repeat(p, k)| == k * |p|
  {
    if k > 0 {
      RepeatLength(p, k - 1);
      OneMore(k - 1, |p|);
    }
  }

  // data fits one packet, or is its own first n bytes over and over, a whole number of times.
  predicate Periodic(data: Bytes, n: nat)
    requires n > 0
  {
    |data| <= n || (|data| % n == 0 && Shifts(data, n))
  }

  predicate Shifts(data: Bytes, n: nat) {
    forall i {:trigger data[i]} | n <= i < |data| :: data[i] == data[i - n]
  }

  // A copy of p behind data that ends in p.
  lemma AppendShifts(data: Bytes, p: Bytes)
    requires Shifts(data, |p|)
    requires data != [] ==> |p| <= |data| && data[|data| - |p|..] == p
    ensures Shifts(data + p, |p|)
  {
    forall i {:trigger (data + p)[i]} | |p| <= i < |data + p| ensures (data + p)[i] == (data + p)[i - |p|] {
      if i >= |data| { assert (data + p)[i - |p|] == data[|data| - |p|..][i - |data|]; }
    }
  }

  lemma {:induction false} RepeatShifts(p: Bytes, k: nat)
    ensures Shifts(Repeat(p, k), |p|)
    ensures k > 0 ==> |p| <= |Repeat(p, k)| && Repeat(p, k)[|Repeat(p, k)| - |p|..] == p
  {
    if k > 0 {
      RepeatShifts(p, k - 1);
      AppendShifts(Repeat(p, k - 1), p);
    }
  }

  // If data repeats with period |p| and all but the last |p| bytes are copies of p, so are those.
  lemma LastCopy(data: Bytes, p: Bytes, c: nat)
    requires |p| <= c && |data| == c + |p| && Shifts(data, |p|)
    requires data[..c][c - |p|..] == p
    ensures data == data[..c] + p
  {
    forall j | 0 <= j < |p| ensures data[c + j] == p[j] {
      assert data[c + j - |p|] == data[..c][c - |p|..][j];
    }
  }

  lemma {:induction false} PeriodicRepeats(data: Bytes, p: Bytes, k: nat)
    requires 0 < |p| && p <= data && Shifts(data, |p|) && |data| == |Repeat(p, k)|
    ensures Repeat(p, k) == data
    decreases k
  {
    var c := |data| - |p|;
    if c == 0 {
      assert data == p;
      assert |Repeat(p, k - 1)| == 0;
    } else {
      var init := data[..c];
      assert |Repeat(p, k - 1)| == c;
      RepeatShifts(p, k - 1);
      assert k > 1;
      PeriodicRepeats(init, p, k - 1);
      LastCopy(data, p, c);
    }
  }

  lemma {:induction false} ConcatCopies(p: Bytes, k: nat)
    ensures Concat(Copies(p, k)) == Repeat(p, k)
  {
    if k > 0 {
      assert Copies(p, k)[..k - 1] == Copies(p, k - 1);
      ConcatCopies(p, k - 1);
    }
  }

  // There are enough free slots at the write edge, of datSpace bytes each.
  predicate Suffices(w: PacketQ, data: Bytes, datSpace: int) {
    data == [] || (datSpace >= 1 && (w.rdSeq + w.Count() - w.wrSeq) * datSpace >= |data|)
  }

  /** A call succeeds if and only if the free slots at the write edge have room for the data, and
      the packets it queues carry the user's data if and only if it succeeds and the data fits
      one packet or happens to repeat its first packetful: every packet is filled from the
      start of the data again. */
  lemma SendCarries(w: PacketQ, data: Bytes, datSpace: int, noAck: bool)
    requires Identity(w) && AllBuffs(w, Clean) && w.Inv()
    ensures var r := Send(w, w.wrSeq, data, datSpace, noAck, 0, []);
            && (r.err == NoError <==> Suffices(w, data, datSpace))
            && (Concat(r.queued) == data <==> Suffices(w, data, datSpace) && (data == [] || Periodic(data, datSpace)))
  {
    hide Identity, AllBuffs, Window.Inv, Appends, Repeat, Concat, Periodic;
    if data != [] && datSpace >= 1 {
      SendFacts(w, data, datSpace, noAck, 0, []);
      hide Send;
      var r := Send(w, w.wrSeq, data, datSpace, noAck, 0, []);
      EdgeBound(w);
      EdgeBound(r.w);
      AppendsSame(w, r.w, Take(data, datSpace), noAck);
      var k: nat := r.w.wrSeq - w.wrSeq;
      var p := Take(data, datSpace);
      assert [] + Copies(p, k) == Copies(p, k);
      ConcatCopies(p, k);
      RepeatLength(p, k);
      EnoughSlots(k, |p|, w.rdSeq + w.Count() - w.wrSeq, datSpace, |data|);
      if r.err == NoError { CopiesCarry(data, datSpace, k); }
    } else {
      ConcatNone();
    }
  }

  lemma ConcatNone()
    ensures Concat<bv8>([]) == []
  {
  }

  lemma AppendsSame(w: PacketQ, w': PacketQ, payload: Bytes, noAck: bool)
    requires Appends(w, w', payload, noAck)
    ensures w'.Count() == w.Count() && w'.rdSeq == w.rdSeq && w'.Inv()
  {
  }

  // k packets of n bytes, of which there may be no more than free.
  lemma EnoughSlots(k: nat, n: nat, free: nat, space: nat, total: nat)
    requires k <= free && n == Min(total, space) && total > 0 && space > 0
    ensures k * n >= total ==> free * space >= total
    ensures k * n < total && k == free ==> free * space < total
  {
    assert k * n <= k * space <= free * space;
    if n == total && k > 0 { assert k * n == (k - 1) * n + n; }
  }

  /** Two bytes that differ do not get across as two packets of one byte each. */
  lemma SendRepeats(noAck: bool)
    ensures var r := Send(Empty(100, 4, ZERO_PACKET), 0, [1, 2], 1, noAck, 0, []);
            r.err == NoError && r.bytesSent == 2 && r.queued == [[1], [1]] && Concat(r.queued) != [1, 2]
  {
    hide Send, Concat;
    var w, data: Bytes := Empty(100, 4, ZERO_PACKET), [1, 2];
    FreshQueue(100, 4);
    SendCarries(w, data, 1, noAck);
    SendFacts(w, data, 1, noAck, 0, []);
    var r := Send(w, 0, data, 1, noAck, 0, []);
    assert Take(data, 1) == [1];
    assert data[1] != data[0];
    assert !Shifts(data, 1);
    assert r.w.wrSeq == 2;
    assert [] + Copies([1], 2) == [[1], [1]];
  }

  lemma FreshQueue(slotDataSize: int, count: nat)
    requires count > 0
    ensures var w := Empty(slotDataSize, count, ZERO_PACKET); w.Inv() && Identity(w) && AllBuffs(w, Clean)
  {
  }

  lemma CopiesCarry(data: Bytes, n: nat, k: nat)
    requires n > 0
    requires var sent := k * |Take(data, n)|; sent >= |data| && (sent == 0 || sent < |data| + |Take(data, n)|)
    ensures Repeat(Take(data, n), k) == data <==> Periodic(data, n)
  {
    hide Repeat;
    var p := Take(data, n);
    RepeatLength(p, k);
    if |data| <= n {
      assert p == data;
      if |data| > 0 {
        FewCopies(k, |data|);
        RepeatOnce(p);
      }
    } else {
      RepeatShifts(p, k);
      if Repeat(p, k) == data { Bits.ModUnique(k * n, n, k, 0); }
      if Periodic(data, n) {
        RightCount(k, n, |data|);
        PeriodicRepeats(data, p, k);
      }
    }
  }

  lemma RepeatOnce(p: Bytes)
    ensures Repeat(p, 1) == p
  {
    assert Repeat(p, 1) == Repeat(p, 0) + p;
  }

  lemma FewCopies(k: nat, m: nat)
    requires m > 0 && m <= k * m < m + m
    ensures k == 1
  {
    assert (k - 1) * m == k * m - m;
    Bits.SmallMultiple(k - 1, m);
  }

  lemma RightCount(k: nat, n: nat, m: nat)
    requires n > 0 && m % n == 0 && m <= k * n < m + n
    ensures m == k * n
  {
    var q := m / n;
    assert m == q * n;
    assert (k - q) * n == k * n - m;
    Bits.SmallMultiple(k - q, n);
  }
}
