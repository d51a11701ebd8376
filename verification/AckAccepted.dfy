/** What one call of generateAcks acknowledges, and how much of it reaches the sender.  A SACK
    sent from inside the loop leaves its sackCount at zero, and a sender refuses a SACK whose
    count differs from its length. */
module AckAccepted {
  import opened Basics
  import opened Packets
  import opened Sender
  import opened Receiver
  import opened AckProofs
  import opened AckExact
  import opened AckRuns
  import opened Acks

  // ---- What a call acknowledges ----

  // The fields collected since the last SACK, up to the end of the loop.
  function OpenNumbers(st: AckScan): seq<int>
    requires st.Ok()
  {
    Expand(st.base, st.fields[..st.Open()])
  }

  lemma ExactParts(rx: PacketQ, seqAck: int, st: AckScan, j: int)
    requires Exact(rx, seqAck, st, j)
    ensures st.Ok() && Collected(st) == Flatten(st.log) + OpenNumbers(st)
    ensures AllCongruent(Collected(st), Wanted(rx, j)) && |Collected(st)| == |Wanted(rx, j)|
    ensures Collected(st) == Wanted(rx, j) <==> Reaches(rx, seqAck, j)
    ensures st.Open() > 0 ==> |OpenNumbers(st)| > 0
    ensures st.Open() == 0 ==> OpenNumbers(st) == []
  {
    hide Wanted, Flatten, Reaches, Congruent;
    if st.Open() > 0 { ExpandSome(st.base, st.fields[..st.Open()]); }
  }

  /** What one call does, on whichever path it returns.  A call that reports success has looked
      at every slot up to its horizon, and its SACKs, expanded as the sender expands them, list
      the packets there that still wanted an acknowledgement, in order and each once: modulo
      2^32, and exactly if and only if the offsets of the first buffer reach its last run.  A
      call that runs out of room has sent a part of what it has collected; the rest is marked
      as acknowledged all the same. */
  lemma CallExact(r: Receiver, maxAckPackets: int, maxSlots: nat, behind: SackField)
    requires RxWindow(r.rxQ) && AckEdge(r.rxQ, r.seqAck) && r.txQ.Inv() && Small(r.rxQ) && r.rxQ.Inv()
    requires StaysInBuffer(r, maxAckPackets, maxSlots, behind) && maxAckPackets > 0 && r.rxQ.readable != 0
    ensures var (r', err, log) := GenerateAcks(r, maxAckPackets, maxSlots, behind);
            var h, j := Horizon(r.rxQ, maxSlots), Reach(r, maxSlots);
            && (err == NoError <==> Room(r.txQ) >= SacksNeeded(r.rxQ, h))
            && Marked(r.rxQ, r'.rxQ, j)
            && (if err == NoError
                then && j == h && AllCongruent(Flatten(log), Wanted(r.rxQ, h))
                     && (Flatten(log) == Wanted(r.rxQ, h) <==> Reaches(r.rxQ, r.seqAck, h))
                else && err == TryAgain && |Flatten(log)| < |Wanted(r.rxQ, j)|
                     && (Reaches(r.rxQ, r.seqAck, j) ==> Flatten(log) < Wanted(r.rxQ, j)))
  {
    hide *;
    CallRuns(r, maxSlots, behind);
    CallResult(r, maxAckPackets, maxSlots, behind);
    StaysIs(r, maxAckPackets, maxSlots, behind);
    var s := AckLoop(AckStart(r, behind), r.rxQ.rdSeq, maxSlots);
    EndNeeds(r, maxSlots, behind, s);
    EndSends(r, maxSlots, behind, s);
    EndedIs(r, maxSlots, behind, s);
    var j := Reach(r, maxSlots);
    ScanDone(r.rxQ, r.txQ, s, j);
    EndDone(r.rxQ, r.txQ, s, j);
    DoneIs(r.rxQ, r.txQ, AckEnd(s), j);
    ExactParts(r.rxQ, r.seqAck, s.st, j);
    ScanOk(r.rxQ, s.st, j);
    if AckEnd(s).err == NoError {
      if s.st.unsent > 0 {
        NoOverread(s);
        LastExact(s.st, Min(j, r.rxQ.wrSeq));
      } else {
        assert Flatten(s.st.log) + [] == Flatten(s.st.log);
      }
    } else {
      SomeLeft(r, maxSlots, behind, s);
      EndIs(s);
    }
  }

  // A call reports an error only with fields collected that it has not sent.
  lemma SomeLeft(r: Receiver, maxSlots: nat, behind: SackField, s: AckStep)
    requires Ended(r, maxSlots, behind, s) && s.st.Ok() && AckEnd(s).err != NoError
    ensures s.st.Open() > 0
  {
    EndNeeds(r, maxSlots, behind, s);
    EndSends(r, maxSlots, behind, s);
    hide Room, SacksNeeded, FillsBuffer, Horizon, Scanning, TxGrew, Flush;
  }

  lemma NothingToReach(w: PacketQ, seqAck: int, h: int)
    requires Wanted(w, h) == []
    ensures Reaches(w, seqAck, h)
  {
    WantedExact(w, h);
    hide ClosedRuns;
    assert forall t | Starts(w, t) && t < h :: t in Wanted(w, h);
  }

  /** Which calls acknowledge everything, given room for their SACKs and a call that stays in
      its buffer: all but those that leave at once because the readable counter says that
      there is nothing, although a packet still wants its acknowledgement, and those whose
      offsets do not reach. */
  lemma NamesAll(r: Receiver, maxAckPackets: int, maxSlots: nat, behind: SackField)
    requires RxWindow(r.rxQ) && AckEdge(r.rxQ, r.seqAck) && r.txQ.Inv() && Small(r.rxQ) && r.rxQ.Inv()
    requires StaysInBuffer(r, maxAckPackets, maxSlots, behind) && maxAckPackets > 0
    requires Room(r.txQ) >= SacksNeeded(r.rxQ, Horizon(r.rxQ, maxSlots))
    ensures var (r', err, log) := GenerateAcks(r, maxAckPackets, maxSlots, behind);
            var wanted := Wanted(r.rxQ, Horizon(r.rxQ, maxSlots));
            && err == NoError
            && (Flatten(log) == wanted
                <==> wanted == [] || (r.rxQ.readable != 0 && Reaches(r.rxQ, r.seqAck, Horizon(r.rxQ, maxSlots))))
  {
    hide *;
    if r.rxQ.readable == 0 {
      Unchanged(r, maxAckPackets, maxSlots, behind);
      FlattenNone();
    } else {
      CallExact(r, maxAckPackets, maxSlots, behind);
      if Wanted(r.rxQ, Horizon(r.rxQ, maxSlots)) == [] { NothingToReach(r.rxQ, r.seqAck, Horizon(r.rxQ, maxSlots)); }
    }
  }

  // ---- What reaches the sender ----

  // What the fields of the last SACK expand to.
  function LastExpand(st: AckScan): seq<int>
    requires st.Ok()
  {
    var f := st.fields[st.fieldIdx];
    OpenNumbers(st) + if st.inProgress then [] else Range(st.base + f.offset, f.count)
  }

  lemma LastExpands(st: AckScan)
    requires st.Ok() && st.Open() > 0
    ensures st.fieldIdx + 1 <= MAX_SACKS + 1 && st.txQ.Inv()
    ensures Expand(st.base, st.fields[..st.fieldIdx + 1]) == LastExpand(st)
  {
    LastFields(st);
    ExpandSnoc(st.base, st.fields[..st.Open()], st.fields[st.fieldIdx]);
    hide Expand;
  }

  // What was sent from inside the loop is not empty, and is refused.
  lemma LogRejected(rx: PacketQ, seqAck: int, tx: PacketQ, st: AckScan, h: int)
    requires Runs(rx, tx, st, h) && Exact(rx, seqAck, st, h)
    ensures (forall s | s in st.log :: !Accepts(s))
    ensures Flatten(Accepted(st.log)) == [] && (st.log != [] ==> Flatten(st.log) != [])
    ensures st.log == [] <==> ClosedRuns(rx, h - 1) < 12
    ensures st.log == [] ==> st.fieldIdx == ClosedRuns(rx, h)
  {
    hide Wanted, Wants, ClosedRuns, Room, Expand, Collected, Reaches, AllCongruent;
    AllRejected(st.log);
  }

  // Nothing of what was sent from inside the loop reaches the sender, and what does does not
  // make up for it: its first number is not the first one wanted.
  lemma LostSome(lost: seq<int>, named: seq<int>, more: seq<int>, wanted: seq<int>)
    requires lost != [] && AllCongruent(lost + named, wanted) && (named == [] ==> more == [])
    requires forall j, k | 0 <= j < k < |wanted| :: wanted[j] < wanted[k] < wanted[j] + TWO_TO_THE_32
    ensures wanted != named + more
  {
    hide Congruent;
    assert |wanted| >= |lost|;
    if named != [] {
      assert (lost + named)[|lost|] == named[0];
      CongruentNear(wanted[0], wanted[|lost|]);
      CongruentBack(wanted[0], wanted[|lost|]);
      assert (named + more)[0] == named[0];
    }
  }

  lemma CongruentBack(x: int, y: int)
    ensures Congruent(x, y) ==> Congruent(y, x)
  {
  }

  // All that reaches the sender is the SACK after the loop.
  lemma EndAccepted(r: Receiver, maxSlots: nat, behind: SackField, s: AckStep)
    requires r.txQ.Inv() && Ended(r, maxSlots, behind, s) && s.st.Ok() && AckEnd(s).err == NoError && Small(r.rxQ)
    ensures !s.stop && Reach(r, maxSlots) == Horizon(r.rxQ, maxSlots)
    ensures Flatten(Accepted(AckEnd(s).st.log)) == if s.st.unsent > 0 then LastExpand(s.st) else []
    ensures s.st.unsent > 0 <==> s.st.Open() > 0
  {
    hide *;
    EndNeeds(r, maxSlots, behind, s);
    EndSends(r, maxSlots, behind, s);
    EndedIs(r, maxSlots, behind, s);
    var j := Reach(r, maxSlots);
    ScanDone(r.rxQ, r.txQ, s, j);
    LogRejected(r.rxQ, r.seqAck, r.txQ, s.st, j);
    if s.st.unsent > 0 {
      LastExpands(s.st);
      AcceptedOne(s.st.log, Sack(s.st.base, s.st.fieldIdx + 1, s.st.fields[..s.st.fieldIdx + 1]));
    }
  }

  // The numbers of one more field, if the last one is closed.
  function Beyond(st: AckScan): seq<int>
    requires st.Ok()
  {
    var f := st.fields[st.fieldIdx];
    if st.Open() == 0 || st.inProgress then [] else Range(st.base + f.offset, f.count)
  }

  lemma BeyondIs(st: AckScan, hi: int)
    requires FieldsOk(st, hi) && st.Ok()
    ensures Beyond(st) == [] <==> st.fieldIdx < 12 || st.fields[MAX_SACKS].count == 0
    ensures st.Open() > 0 ==> LastExpand(st) == OpenNumbers(st) + Beyond(st)
  {
    hide Below, Expand;
  }

  lemma LastMeets(rx: PacketQ, seqAck: int, tx: PacketQ, st: AckScan, h: int)
    requires Exact(rx, seqAck, st, h) && Runs(rx, tx, st, h) && FieldsOk(st, Min(h, rx.wrSeq)) && st.Ok()
    requires h <= rx.rdSeq + rx.Count()
    ensures (if st.Open() > 0 then LastExpand(st) else []) == Wanted(rx, h)
            <==> && ClosedRuns(rx, h - 1) < 12 && (st.fields[MAX_SACKS].count == 0 || ClosedRuns(rx, h) < 12)
                 && Reaches(rx, seqAck, h)
  {
    hide *;
    ExactParts(rx, seqAck, st, h);
    BeyondIs(st, Min(h, rx.wrSeq));
    LogRejected(rx, seqAck, tx, st, h);
    WantedNear(rx, seqAck, st, h);
    FlattenNone();
    LastIs(st, Wanted(rx, h));
  }

  lemma WantedNear(rx: PacketQ, seqAck: int, st: AckScan, h: int)
    requires Exact(rx, seqAck, st, h) && h <= rx.rdSeq + rx.Count()
    ensures forall j, k | 0 <= j < k < |Wanted(rx, h)| :: Wanted(rx, h)[j] < Wanted(rx, h)[k] < Wanted(rx, h)[j] + TWO_TO_THE_32
  {
    WantedIncreasing(rx, h);
    WantedFrom(rx, h);
    hide Wanted, Collected, AllCongruent, Reaches, Growing;
  }

  lemma LastIs(st: AckScan, wanted: seq<int>)
    requires st.Ok() && Collected(st) == Flatten(st.log) + OpenNumbers(st) && AllCongruent(Collected(st), wanted)
    requires |Collected(st)| == |wanted| && Flatten([]) == []
    requires st.Open() == 0 ==> OpenNumbers(st) == []
    requires st.Open() > 0 ==> |OpenNumbers(st)| > 0 && LastExpand(st) == OpenNumbers(st) + Beyond(st)
    requires st.log != [] ==> Flatten(st.log) != []
    requires forall j, k | 0 <= j < k < |wanted| :: wanted[j] < wanted[k] < wanted[j] + TWO_TO_THE_32
    ensures (if st.Open() > 0 then LastExpand(st) else []) == wanted
            <==> st.log == [] && Beyond(st) == [] && Collected(st) == wanted
  {
    hide OpenNumbers, LastExpand, Flatten, Collected, AllCongruent;
    var named, more := OpenNumbers(st), Beyond(st);
    assert st.Open() == 0 ==> more == [];
    if st.log != [] {
      LostSome(Flatten(st.log), named, more, wanted);
    } else {
      assert [] + named == named;
      assert |named + more| == |named| + |more|;
      assert more == [] ==> named + more == named;
    }
  }

  /** Which calls get all their acknowledgements across.  The sender hears of exactly the
      packets that the call looked at and that wanted an acknowledgement if and only if there
      were none, or the readable counter let the call look, the twelfth run of such packets is
      not closed before the last slot the call looks at, nor at that slot while the memory
      behind the field buffer reads as a non-empty field, there is room for what the call has to
      send, and the offsets reach. */
  lemma AcceptedExact(r: Receiver, maxAckPackets: int, maxSlots: nat, behind: SackField)
    requires RxWindow(r.rxQ) && AckEdge(r.rxQ, r.seqAck) && r.txQ.Inv() && Small(r.rxQ) && r.rxQ.Inv()
    requires maxAckPackets > 0
    ensures var w, h := r.rxQ, Horizon(r.rxQ, maxSlots);
            Flatten(Accepted(GenerateAcks(r, maxAckPackets, maxSlots, behind).2)) == Wanted(w, h)
            <==> Wanted(w, h) == []
                 || (w.readable != 0 && ClosedRuns(w, h - 1) < 12 && (behind.count == 0 || ClosedRuns(w, h) < 12)
                     && Room(r.txQ) >= SacksNeeded(w, h) && Reaches(w, r.seqAck, h))
  {
    hide *;
    var w, h := r.rxQ, Horizon(r.rxQ, maxSlots);
    if w.readable == 0 {
      Unchanged(r, maxAckPackets, maxSlots, behind);
      FlattenNone();
    } else {
      CallRuns(r, maxSlots, behind);
      CallResult(r, maxAckPackets, maxSlots, behind);
      var s := AckLoop(AckStart(r, behind), w.rdSeq, maxSlots);
      EndSends(r, maxSlots, behind, s);
      EndedIs(r, maxSlots, behind, s);
      if Wanted(w, h) == [] {
        NoneClosed(w, h);
        NothingToReach(w, r.seqAck, h);
      }
      if AckEnd(s).err == NoError {
        EndAccepted(r, maxSlots, behind, s);
        ScanDone(w, r.txQ, s, h);
        ScanOk(w, s.st, h);
        HorizonIn(w, maxSlots);
        LastMeets(w, r.seqAck, r.txQ, s.st, h);
      } else {
        LogRejected(w, r.seqAck, r.txQ, s.st, Reach(r, maxSlots));
      }
    }
  }

  lemma HorizonIn(w: PacketQ, maxSlots: nat)
    requires w.Inv()
    ensures Horizon(w, maxSlots) <= w.rdSeq + w.Count()
  {
  }

  lemma NotBefore(w: PacketQ, t: int)
    requires t < w.rdSeq
    ensures !Wants(w, t)
  {
  }

  lemma {:induction false} NoneClosed(w: PacketQ, h: int)
    requires Wanted(w, h) == []
    ensures ClosedRuns(w, h) == 0 && ClosedRuns(w, h - 1) == 0 && SacksNeeded(w, h) == 0
    decreases h - w.rdSeq
  {
    hide Wants;
    if h > w.rdSeq {
      NoneClosed(w, h - 1);
      assert !Wants(w, h - 1);
      assert h - 1 > w.rdSeq ==> Wanted(w, h - 1) == [] && !Wants(w, h - 2);
    } else {
      NotBefore(w, h - 1);
    }
  }
}
