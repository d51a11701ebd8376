/** The transmission state of outgoing acknowledgements.  Nobody sets it when a SACK is queued: a
    SACK takes over the state that its slot was left in. */
module AckQueue {
  import Bits
  import opened RingWindow
  import opened Packets
  import opened Sender
  import opened Receiver
  import opened AckProofs
  import opened Acks
  import opened Stale
  import opened StaleEnds
  import opened StaleCalls
  import opened Protocol
  import opened ProtocolProofs
  import opened Delivery
  import opened UserTx

  // Two numbers that share a slot of a queue of n slots.
  predicate SameSlot(t: int, u: int, n: nat) { n > 0 && t % n == u % n }

  // A packet in w that is marked x, in the slot of number t.
  ghost predicate MarkedIn(w: PacketQ, t: int, x: TxState) {
    exists u :: w.InRange(u) && SameSlot(t, u, w.Count()) && w.At(u).buff.txState == x
  }

  // No slot of v, in use or not, is marked otherwise than ready unless it was in w.
  ghost predicate Inherits(w: PacketQ, v: PacketQ) {
    && v.Count() == w.Count() > 0
    && forall t | v.InRange(t) && v.At(t).buff.txState != TxRdy :: MarkedIn(w, t, v.At(t).buff.txState)
  }

  lemma Witness(w: PacketQ, t: int, u: int, x: TxState)
    requires w.InRange(u) && SameSlot(t, u, w.Count()) && w.At(u).buff.txState == x
    ensures MarkedIn(w, t, x)
  {
  }

  // Slot by slot, nothing but ready packets is new.
  lemma InheritsSame(w: PacketQ, v: PacketQ)
    requires v.rdSeq == w.rdSeq && v.Count() == w.Count() > 0
    requires forall t | w.InRange(t) :: v.At(t).buff.txState in {TxRdy, w.At(t).buff.txState}
    ensures Inherits(w, v)
  {
    hide MarkedIn;
    forall t | v.InRange(t) && v.At(t).buff.txState != TxRdy ensures MarkedIn(w, t, v.At(t).buff.txState) {
      assert w.InRange(t);
      Witness(w, t, t, v.At(t).buff.txState);
    }
  }

  lemma InheritsTrans(w: PacketQ, m: PacketQ, v: PacketQ)
    requires Inherits(w, m) && Inherits(m, v)
    ensures Inherits(w, v)
  {
    forall t | v.InRange(t) && v.At(t).buff.txState != TxRdy ensures MarkedIn(w, t, v.At(t).buff.txState) {
      var x := v.At(t).buff.txState;
      assert MarkedIn(m, t, x);
      var u :| m.InRange(u) && SameSlot(t, u, m.Count()) && m.At(u).buff.txState == x;
      assert MarkedIn(w, u, x);
      var y :| w.InRange(y) && SameSlot(u, y, w.Count()) && w.At(y).buff.txState == x;
      Witness(w, t, y, x);
    }
  }

  lemma LapIsSame(t: int, n: nat)
    requires n > 0
    ensures SameSlot(t, t, n) && SameSlot(t, t - n, n)
  {
    var q, r := t / n, t % n;
    assert t - n == (q - 1) * n + r;
    Bits.ModUnique(t - n, n, q - 1, r);
  }

  lemma NoShift<T>(c: seq<T>)
    ensures c[0..] + c[..0] == c
  {
  }

  lemma ReleaseShifts(w: PacketQ, s: int)
    requires w.Inv() && w.Has(s)
    ensures var v, k := Release(w, s).0, Release(w, s).0.rdSeq - w.rdSeq;
            0 <= k <= w.Count() && v.cells == Shift(Free(w, s), k).cells
  {
    NoShift(Free(w, s).cells);
    hide Window.Inv, Free;
  }

  // Which slot of w a slot is after k slots have left the window.
  lemma ShiftedSlot(w: PacketQ, k: nat, t: int) returns (u: int)
    requires k <= w.Count() && Shift(w, k).InRange(t)
    ensures w.InRange(u) && SameSlot(t, u, w.Count()) && Shift(w, k).At(t) == w.At(u)
    ensures u == t || u < w.rdSeq + k
  {
    LapIsSame(t, w.Count());
    hide SameSlot;
    if t < w.rdSeq + w.Count() {
      u := t;
    } else {
      u := t - w.Count();
      ShiftEnters(w, k, t);
    }
  }

  // The buffer of a slot is what it was, in the same physical slot.
  lemma ReleasedBuff(w: PacketQ, s: int, t: int) returns (u: int)
    requires w.Inv() && w.Has(s) && Release(w, s).0.InRange(t)
    ensures w.InRange(u) && SameSlot(t, u, w.Count()) && Release(w, s).0.At(t).buff == w.At(u).buff
    ensures u == t || u < Release(w, s).0.rdSeq
  {
    ReleaseShifts(w, s);
    hide Release, SameSlot, Window.Inv, Shift, Free;
    u := ShiftedSlot(Free(w, s), Release(w, s).0.rdSeq - w.rdSeq, t);
  }

  // A slot that is released keeps its mark, for whoever has it next.
  lemma InheritsRelease(w: PacketQ, s: int)
    requires w.Inv()
    ensures Inherits(w, Release(w, s).0)
  {
    if w.Has(s) {
      var v := Release(w, s).0;
      Positive(w);
      hide Release, MarkedIn, SameSlot, Window.Inv;
      forall t | v.InRange(t) && v.At(t).buff.txState != TxRdy ensures MarkedIn(w, t, v.At(t).buff.txState) {
        var u := ReleasedBuff(w, s, t);
        Witness(w, t, u, v.At(t).buff.txState);
      }
    } else {
      InheritsSame(w, w);
    }
  }

  lemma InheritsPut(w: PacketQ, i: int, x: Packet)
    requires w.Inv() && w.Has(i) && x.txState in {TxRdy, w.At(i).buff.txState}
    ensures w.InRange(i) && w.Put(i, x).Inv() && Inherits(w, w.Put(i, x))
  {
    SentEdge(w, i, x);
    InheritsSame(w, w.Put(i, x));
  }

  lemma InheritsTx(w: PacketQ, i: int, hw: int -> bool)
    requires w.Inv()
    ensures Inherits(w, TxAt(w, i, hw).w)
  {
    hide Release, Inherits, Window.Inv, Window.Put;
    Positive(w);
    InheritsSame(w, w);
    InheritsRelease(w, i);
    if w.Has(i) {
      var p := w.At(i).buff;
      InheritsPut(w, i, p.(txState := TxRdy));
      InheritsPut(w, i, MarkSent(p));
      InheritsRelease(w.Put(i, MarkSent(p)), i);
      InheritsTrans(w, w.Put(i, MarkSent(p)), Release(w.Put(i, MarkSent(p)), i).0);
    }
  }

  lemma Positive(w: PacketQ)
    requires w.Inv()
    ensures w.Count() > 0
  {
  }

  lemma {:induction false} InheritsNetTx(w: PacketQ, i: int, maxSlots: nat, hw: int -> bool, out: seq<Sent>)
    requires w.Inv()
    ensures Inherits(w, NetTx(w, i, maxSlots, hw, out).w)
    decreases w.wrSeq + 1 - i
  {
    hide TxAt, Inherits, Window.Inv;
    Positive(w);
    InheritsSame(w, w);
    Bounds(w);
    if i < w.rdMax && i < w.rdSeq + maxSlots {
      var s := TxAt(w, i, hw);
      InheritsTx(w, i, hw);
      if !s.stop {
        InheritsNetTx(s.w, i + 1, maxSlots, hw, out + s.out);
        InheritsTrans(w, s.w, NetTx(w, i, maxSlots, hw, out).w);
      }
    }
  }


  // ---- Slots that are marked to be sent ----

  // Only packets in use are marked to be sent.
  ghost predicate SendsFull(w: PacketQ) {
    w.Inv() && forall t | w.InRange(t) && w.At(t).buff.txState == TxNow :: w.Has(t)
  }

  // Of the packets of v, those marked to be sent were so marked in w, under the same numbers.
  ghost predicate NoNewSends(w: PacketQ, v: PacketQ) {
    SendsFull(v) && forall t | v.Has(t) && v.At(t).buff.txState == TxNow :: w.Has(t) && w.At(t).buff.txState == TxNow
  }

  lemma SendsTrans(w: PacketQ, m: PacketQ, v: PacketQ)
    requires NoNewSends(w, m) && NoNewSends(m, v)
    ensures NoNewSends(w, v)
  {
  }

  // Slot by slot, nothing is marked to be sent that was not.
  lemma SendsSame(w: PacketQ, v: PacketQ)
    requires SendsFull(w) && v.Inv() && v.rdSeq == w.rdSeq && v.Count() == w.Count()
    requires forall t | w.InRange(t) && v.At(t).buff.txState == TxNow ::
               w.At(t).buff.txState == TxNow && (w.Has(t) ==> v.Has(t))
    ensures NoNewSends(w, v)
  {
    hide Window.Inv;
    assert forall t :: v.InRange(t) <==> w.InRange(t);
  }

  // A slot that is released was not marked to be sent any more.
  lemma SendsRelease(w: PacketQ, s: int)
    requires SendsFull(w) && (w.Has(s) ==> w.At(s).buff.txState != TxNow)
    ensures NoNewSends(w, Release(w, s).0)
  {
    if w.Has(s) {
      ReleaseHas(w, s);
      hide Release, Window.Inv, SameSlot;
      var v := Release(w, s).0;
      forall t | v.InRange(t) && v.At(t).buff.txState == TxNow ensures v.Has(t) {
        var u := ReleasedBuff(w, s, t);
        assert w.Has(u) && u != s;
        assert v.Has(u);
      }
    }
  }

  lemma SendsPut(w: PacketQ, i: int, x: Packet)
    requires SendsFull(w) && w.Has(i) && x.txState == TxRdy
    ensures w.InRange(i) && NoNewSends(w, w.Put(i, x)) && w.Put(i, x).Has(i) && w.Put(i, x).At(i).buff == x
  {
    PutAt(w, i, x);
    SendsSame(w, w.Put(i, x));
  }

  lemma SendsTx(w: PacketQ, i: int, hw: int -> bool)
    requires SendsFull(w)
    ensures w.Inv() && NoNewSends(w, TxAt(w, i, hw).w)
  {
    hide Release, NoNewSends, Window.Inv, Window.Put;
    SendsItself(w);
    if w.Has(i) {
      var p := w.At(i).buff;
      if p.txState == TxDrp { SendsRelease(w, i); }
      SendsPut(w, i, p.(txState := TxRdy));
      SendsPut(w, i, MarkSent(p));
      var m := w.Put(i, MarkSent(p));
      SendsStill(w, m);
      SendsRelease(m, i);
      SendsTrans(w, m, Release(m, i).0);
    }
  }

  lemma SendsStill(w: PacketQ, m: PacketQ)
    requires NoNewSends(w, m)
    ensures m.Inv() && SendsFull(m)
  {
  }

  lemma SendsItself(w: PacketQ)
    requires SendsFull(w)
    ensures w.Inv() && NoNewSends(w, w)
  {
  }

  lemma {:induction false} SendsNetTx(w: PacketQ, i: int, maxSlots: nat, hw: int -> bool, out: seq<Sent>)
    requires SendsFull(w)
    ensures w.Inv() && NoNewSends(w, NetTx(w, i, maxSlots, hw, out).w)
    decreases w.wrSeq + 1 - i
  {
    hide TxAt, NoNewSends, SendsFull, Window.Inv;
    SendsItself(w);
    Bounds(w);
    if i < w.rdMax && i < w.rdSeq + maxSlots {
      var s := TxAt(w, i, hw);
      SendsTx(w, i, hw);
      if !s.stop {
        SendsStill(w, s.w);
        SendsNetTx(s.w, i + 1, maxSlots, hw, out + s.out);
        SendsTrans(w, s.w, NetTx(w, i, maxSlots, hw, out).w);
      }
    }
  }

  lemma InheritsGrew(w: PacketQ, v: PacketQ, log: seq<Sack>)
    requires w.Inv() && TxGrew(w, v, log)
    ensures Inherits(w, v) && (SendsFull(w) ==> NoNewSends(w, v))
  {
    InheritsSame(w, v);
    if SendsFull(w) { SendsSame(w, v); }
  }

  // ---- Runs ----

  // One step that is not a mark.
  lemma StepInherits(s: System, e: Event)
    requires Safe(s) && Queues(s) && Enabled(s, e) && !e.MarkAcks?
    ensures Inherits(s.rcv.txQ, Step(s, e).rcv.txQ)
    ensures SendsFull(s.rcv.txQ) ==> NoNewSends(s.rcv.txQ, Step(s, e).rcv.txQ)
  {
    hide *;
    SafeParts(s);
    EnabledIs(s, e);
    Positive(s.rcv.txQ);
    InheritsItself(s.rcv.txQ);
    if SendsFull(s.rcv.txQ) { SendsItself(s.rcv.txQ); }
    match e {
      case MakeAcks(packets, slots, behind) =>
        GenerateAcksKeeps(s.rcv, packets, slots, behind);
        var (r, err, log) := GenerateAcks(s.rcv, packets, slots, behind);
        InheritsGrew(s.rcv.txQ, r.txQ, log);
        MakeAcksIs(s, e);
      case MakeStaleAcks(packets, slots, behind) =>
        StaleParts(s.rcv.staleQ, s.rcv.rxQ.rdSeq);
        FirstOverruns(s.rcv.staleQ, slots, s.rcv.rxQ.wrSeq);
        var k := StaleSound(s.rcv, packets, slots, behind, s.rcv.rxQ.wrSeq);
        var (r, err, log) := GenerateStaleAcks(s.rcv, packets, slots, behind);
        InheritsGrew(s.rcv.txQ, r.txQ, log);
        MakeStaleAcksIs(s, e);
      case SendAcks(slots, hw) =>
        InheritsNetTx(s.rcv.txQ, s.rcv.txQ.rdSeq, slots, hw, []);
        if SendsFull(s.rcv.txQ) { SendsNetTx(s.rcv.txQ, s.rcv.txQ.rdSeq, slots, hw, []); }
        SendAcksIs(s, e);
      case _ => OtherStep(s, e);
    }
  }

  lemma InheritsItself(w: PacketQ)
    requires w.Count() > 0
    ensures Inherits(w, w)
  {
    InheritsSame(w, w);
  }

  lemma OtherStep(s: System, e: Event)
    requires Queues(s) && (e.UserSends? || e.MarkDats? || e.SendDats? || e.DatArrives? || e.AckArrives? || e.UserReads?)
    ensures Step(s, e).rcv.txQ == s.rcv.txQ
  {
    hide NetTx, OnRxAck, Remark, Send, UserRx, Commit, Gone;
  }

  lemma MarkIs(s: System, e: Event)
    requires Queues(s) && e.MarkAcks?
    ensures Step(s, e).rcv.txQ == Remark(s.rcv.txQ, e.markAck)
  {
    hide Remark;
  }

  lemma RemarkAt(w: PacketQ, mark: int -> TxState, t: int)
    requires Remark(w, mark).InRange(t)
    ensures w.InRange(t) && Remark(w, mark).Count() == w.Count()
    ensures Remark(w, mark).At(t).buff.txState == if w.Has(t) then mark(t) else w.At(t).buff.txState
    ensures Remark(w, mark).Has(t) <==> w.Has(t)
  {
    hide Remark;
  }

  lemma InitialReady(s: System)
    requires Initial(s)
    ensures s.rcv.txQ.Count() > 0 && forall t | s.rcv.txQ.InRange(t) :: s.rcv.txQ.At(t).buff.txState == TxRdy
    ensures s.rcv.txQ.Inv()
  {
  }

  // Transmission control has marked a SACK x, before state i, in the slot that number t has then.
  ghost predicate WasMarked(states: seq<System>, events: seq<Event>, i: nat, t: int, x: TxState)
    requires |states| == |events| + 1 && i < |states|
  {
    exists j, u | 0 <= j < i :: Marks(states, events, j, u, x) && SameSlot(t, u, states[i].rcv.txQ.Count())
  }

  ghost predicate Marks(states: seq<System>, events: seq<Event>, j: nat, u: int, x: TxState)
    requires |states| == |events| + 1 && j < |events|
  {
    events[j].MarkAcks? && states[j].rcv.txQ.Has(u) && events[j].markAck(u) == x
  }

  // Every slot for an outgoing SACK that is marked in state i was marked by transmission control.
  ghost predicate OnPurpose(states: seq<System>, events: seq<Event>, i: nat)
    requires |states| == |events| + 1 && i < |states|
  {
    var w := states[i].rcv.txQ;
    forall t | w.InRange(t) && w.At(t).buff.txState != TxRdy :: WasMarked(states, events, i, t, w.At(t).buff.txState)
  }

  lemma MarkedEarlier(states: seq<System>, events: seq<Event>, i: nat, t: int, u: int, x: TxState)
    requires |states| == |events| + 1 && i + 1 < |states| && states[i + 1].rcv.txQ.Count() == states[i].rcv.txQ.Count()
    requires WasMarked(states, events, i, u, x) && SameSlot(t, u, states[i].rcv.txQ.Count())
    ensures WasMarked(states, events, i + 1, t, x)
  {
    var j, y :| 0 <= j < i && Marks(states, events, j, y, x) && SameSlot(u, y, states[i].rcv.txQ.Count());
    assert Marks(states, events, j, y, x) && SameSlot(t, y, states[i + 1].rcv.txQ.Count());
  }

  // One step of the theorem below.
  lemma MarkedStep(states: seq<System>, events: seq<Event>, i: nat)
    requires Run(states, events) && i + 1 < |states| && Safe(states[i]) && states[i].rcv.txQ.Count() > 0
    requires OnPurpose(states, events, i)
    ensures states[i + 1].rcv.txQ.Count() == states[i].rcv.txQ.Count() && OnPurpose(states, events, i + 1)
  {
    RunStep(states, events, i);
    hide Run, Safe, Step, Enabled, Queues, Window.Inv, WasMarked, Remark;
    var s, e, v := states[i], events[i], states[i + 1];
    var w := s.rcv.txQ;
    if e.MarkAcks? {
      MarkIs(s, e);
      assert v.rcv.txQ == Remark(w, e.markAck);
      assert v.rcv.txQ.Count() == w.Count();
      forall t | v.rcv.txQ.InRange(t) && v.rcv.txQ.At(t).buff.txState != TxRdy
        ensures WasMarked(states, events, i + 1, t, v.rcv.txQ.At(t).buff.txState)
      {
        RemarkAt(w, e.markAck, t);
        if w.Has(t) {
          MarkedNow(states, events, i, t, v.rcv.txQ.At(t).buff.txState);
        } else {
          MarkedEarlier(states, events, i, t, t, w.At(t).buff.txState);
        }
      }
    } else {
      StepInherits(s, e);
      forall t | v.rcv.txQ.InRange(t) && v.rcv.txQ.At(t).buff.txState != TxRdy
        ensures WasMarked(states, events, i + 1, t, v.rcv.txQ.At(t).buff.txState)
      {
        var x := v.rcv.txQ.At(t).buff.txState;
        assert MarkedIn(w, t, x);
        var u :| w.InRange(u) && SameSlot(t, u, w.Count()) && w.At(u).buff.txState == x;
        MarkedEarlier(states, events, i, t, u, x);
      }
    }
  }

  lemma MarkedNow(states: seq<System>, events: seq<Event>, i: nat, t: int, x: TxState)
    requires |states| == |events| + 1 && i + 1 < |states| && states[i + 1].rcv.txQ.Count() > 0
    requires Marks(states, events, i, t, x)
    ensures WasMarked(states, events, i + 1, t, x)
  {
    assert SameSlot(t, t, states[i + 1].rcv.txQ.Count());
  }

  /** In every run: a slot for an outgoing SACK is marked to be sent or to be dropped only if
      transmission control has marked a SACK so that was in the same slot. */
  lemma {:induction false} MarkedOnPurpose(states: seq<System>, events: seq<Event>, i: nat)
    requires Run(states, events) && Initial(states[0]) && i < |states|
    ensures states[i].rcv.txQ.Count() > 0 && OnPurpose(states, events, i)
  {
    hide WasMarked, Step, Enabled, Queues, Initial, Safe, Window.Inv;
    if i == 0 {
      InitialReady(states[0]);
    } else {
      MarkedOnPurpose(states, events, i - 1);
      InitialSafe(states[0]);
      RunSafe(states, events, i - 1);
      MarkedStep(states, events, i - 1);
    }
  }

  // The only slot of a queue holds a packet that is to be dropped.
  lemma OneDropped(w: PacketQ, s: nat, hw: int -> bool)
    requires w.Inv() && w.Count() == 1 && w.rdSeq == s && w.Has(s) && w.At(s).buff.txState == TxDrp
    ensures var r := NetTx(w, s, 1, hw, []);
            && r.out == [] && r.err == NoError && r.w.Inv() && r.w.Count() == 1 && r.w.rdSeq == r.w.wrSeq == s + 1
            && !r.w.Has(s) && r.w.InRange(s + 1) && r.w.At(s + 1).buff == w.At(s).buff
  {
    OneReleased(w, s);
    var v := Release(w, s).0;
    assert TxAt(w, s, hw) == TxStep(v, [], false, NoError) by { hide Release, Window.Inv; }
    assert Quiet(v, 1);
    hide Release, TxAt, Window.Inv, Quiet;
    QuietCall(v, s + 1, 1, hw, [] + []);
  }

  lemma OneReleased(w: PacketQ, s: nat)
    requires w.Inv() && w.Count() == 1 && w.rdSeq == s && w.Has(s)
    ensures s < w.rdMax
    ensures var v := Release(w, s).0;
            && v.Inv() && v.Count() == 1 && v.rdSeq == v.wrSeq == s + 1
            && !v.Has(s) && !v.Has(s + 1) && v.InRange(s + 1) && v.At(s + 1).buff == w.At(s).buff
  {
    ReleaseFacts(w, s);
    ReleaseHas(w, s);
    ShiftEnters(Free(w, s), 1, s + 1);
  }

  // The only slot of a queue takes a SACK.
  lemma OnePushed(w: PacketQ, s: nat, a: Sack)
    requires w.Inv() && w.Count() == 1 && w.rdSeq == w.wrSeq == s
    ensures var (v, err) := PushSack(w, a);
            && err == NoError && v.Inv() && v.Count() == 1 && v.rdSeq == s && w.InRange(s)
            && v.Has(s) && v.At(s).buff == Packet(w.At(s).buff.txState, KindAck, w.At(s).buff.dat, a)
  {
    PushSackExact(w, a);
    hide PushSack;
  }

  // ---- A SACK that is marked to be sent ----

  // Before state i, transmission control has told SACK t to go.
  ghost predicate WasTold(states: seq<System>, events: seq<Event>, i: nat, t: int)
    requires |states| == |events| + 1 && i < |states|
  {
    exists j | 0 <= j < i :: Marks(states, events, j, t, TxNow)
  }

  ghost predicate SendsTold(states: seq<System>, events: seq<Event>, i: nat)
    requires |states| == |events| + 1 && i < |states|
  {
    var w := states[i].rcv.txQ;
    SendsFull(w) && forall t | w.Has(t) && w.At(t).buff.txState == TxNow :: WasTold(states, events, i, t)
  }

  lemma ToldStep(states: seq<System>, events: seq<Event>, i: nat)
    requires Run(states, events) && i + 1 < |states| && Safe(states[i]) && SendsTold(states, events, i)
    ensures SendsTold(states, events, i + 1)
  {
    RunStep(states, events, i);
    hide Run, Safe, Step, Enabled, Queues, Window.Inv, Remark;
    var s, e, v := states[i], events[i], states[i + 1].rcv.txQ;
    var w := s.rcv.txQ;
    if e.MarkAcks? {
      MarkIs(s, e);
      MarkedSends(w, e.markAck);
      forall t | v.Has(t) && v.At(t).buff.txState == TxNow ensures WasTold(states, events, i + 1, t) {
        assert Marks(states, events, i, t, TxNow);
      }
    } else {
      StepInherits(s, e);
      forall t | v.Has(t) && v.At(t).buff.txState == TxNow ensures WasTold(states, events, i + 1, t) {
        var j :| 0 <= j < i && Marks(states, events, j, t, TxNow);
      }
    }
  }

  // The marks of transmission control are on packets in use.
  lemma MarkedSends(w: PacketQ, mark: int -> TxState)
    requires SendsFull(w)
    ensures SendsFull(Remark(w, mark))
    ensures forall t | Remark(w, mark).Has(t) :: w.Has(t) && Remark(w, mark).At(t).buff.txState == mark(t)
  {
    forall t | Remark(w, mark).InRange(t) && Remark(w, mark).At(t).buff.txState == TxNow
      ensures Remark(w, mark).Has(t)
    {
      RemarkAt(w, mark, t);
    }
    forall t | Remark(w, mark).Has(t) ensures w.Has(t) && Remark(w, mark).At(t).buff.txState == mark(t) {
      RemarkAt(w, mark, t);
    }
  }

  /** In every run: a SACK is marked to be sent only if transmission control has so marked that very
      SACK, under its own number; and no slot is left marked so when it is not in use. */
  lemma {:induction false} SentOnPurpose(states: seq<System>, events: seq<Event>, i: nat)
    requires Run(states, events) && Initial(states[0]) && i < |states|
    ensures SendsTold(states, events, i)
  {
    hide WasTold, Step, Enabled, Queues, Initial, Safe, Window.Inv;
    if i == 0 {
      InitialReady(states[0]);
    } else {
      SentOnPurpose(states, events, i - 1);
      InitialSafe(states[0]);
      RunSafe(states, events, i - 1);
      ToldStep(states, events, i - 1);
    }
  }

  // ---- A SACK that is thrown away ----

  /** Which SACK is thrown away unsent if transmission control leaves it alone: that whose slot was left
      marked to be dropped, in any queue.  The next pass does it, if it gets as far as that slot. */
  lemma DroppedExact(w: PacketQ, a: Sack, maxSlots: nat, hw: int -> bool)
    requires w.Inv() && w.wrSeq < w.rdSeq + w.Count() && w.wrSeq < w.rdSeq + maxSlots
    ensures var (v, err) := PushSack(w, a);
            var r := NetTx(v, v.rdSeq, maxSlots, hw, []);
            && err == NoError && w.InRange(w.wrSeq)
            && (r.err == NoError ==>
                  (!r.w.Has(w.wrSeq) && (forall o | o in r.out :: o.slot != w.wrSeq)
                   <==> w.At(w.wrSeq).buff.txState == TxDrp))
  {
    PushSackExact(w, a);
    hide PushSack, NetTx, Window.Inv, SameMessage, OneShot;
    var v, s := PushSack(w, a).0, w.wrSeq;
    var r := NetTx(v, v.rdSeq, maxSlots, hw, []);
    NetTxKeeps(v, v.rdSeq, maxSlots, hw, []);
    NetTxSends(v, v.rdSeq, maxSlots, hw, []);
    assert r.out[0..] == r.out;
    if r.err == NoError {
      NetTxComplete(v, v.rdSeq, maxSlots, hw, []);
    }
  }

  /** A SACK that is to be dropped need not be the one that was marked so.  In a queue of one slot, a
      SACK is dropped.  The next one that is queued is thrown away without ever having been sent. */
  lemma DroppedUnasked(a: Sack, b: Sack, drop: int -> TxState, hw: int -> bool)
    requires drop(0) == TxDrp
    ensures var w1 := PushSack(Empty(100, 1, ZERO_PACKET), a).0;
            var w2 := NetTx(Remark(w1, drop), 0, 1, hw, []).w;
            && w2.Inv()
            && var (w3, err) := PushSack(w2, b);
            && err == NoError && w3.Has(1) && w3.At(1).buff.sack == b && w3.At(1).buff.txState == TxDrp
            && var last := NetTx(w3, 1, 1, hw, []);
            && last.out == [] && last.err == NoError && !last.w.Has(1)
  {
    var w0 := Empty(100, 1, ZERO_PACKET);
    hide PushSack, NetTx, Window.Inv;
    OnePushed(w0, 0, a);
    var m := Remark(PushSack(w0, a).0, drop);
    OneDropped(m, 0, hw);
    var w2 := NetTx(m, 0, 1, hw, []).w;
    OnePushed(w2, 1, b);
    OneDropped(PushSack(w2, b).0, 1, hw);
  }
}
