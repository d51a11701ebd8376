/** What one call of generateStaleAcks acknowledges, for every list and every number of
    iterations, and which calls are exact and sound, told from the list before the call. */
module StaleCalls {
  import opened Basics
  import opened RingWindow
  import opened Packets
  import opened LinkedList
  import opened Sender
  import opened Receiver
  import opened AckProofs
  import opened AckRuns
  import opened Stale
  import opened StaleRuns
  import opened StaleEnds

  // ---- The call ----

  // The numbers in the SACK after the loop.
  function Named(l: StaleQ, k: nat, m: nat, again: bool): seq<int>
    requires 0 < m <= |l|
  {
    if again then [l[m - 1].seqNum] else if m == k && After(l, m).field == 13 then [] else After(l, m).named
  }

  lemma EndState(l: StaleQ, st: StaleScan, i: nat, k: nat, m: nat, again: bool, maxSlots: nat)
    requires Visiting(l, st, i, k, m, again) && i <= maxSlots && (i == maxSlots || k == |l|) && Sorted(l)
    ensures Ends(l, i, k, m, again, maxSlots)
  {
    hide Collecting, Emptied, Distinct, After;
  }

  // The SACK after the loop.
  lemma LastSack(l: StaleQ, st: StaleScan, i: nat, k: nat, m: nat, again: bool, hi: int)
    requires Sorted(l) && Visiting(l, st, i, k, m, again) && forall j | 0 <= j < |l| :: l[j].seqNum < hi
    ensures st.fieldIdx <= MAX_SACKS < MAX_SACKS + 1
    ensures st.unsent > 0 <==> again || !(m == k && After(l, m).field == 13)
    ensures var sack := Sack(st.base, st.fieldIdx + 1, st.fields[..st.fieldIdx + 1]);
            st.unsent > 0 ==>
              && (Spread(l) ==> Expand(sack.base, sack.fields) == Named(l, k, m, again))
              && (again || !After(l, m).long || l[m - 1].seqNum + 1 < hi ==> SackBelow(sack, hi))
  {
    hide Distinct, After, Expand;
    if again {
      assert st.fields[..1] == [SackField(0, 1)];
      OneField(st.base, SackField(0, 1));
      assert Range(st.base, 1) == [st.base];
    } else if st.unsent > 0 {
      if !After(l, m).long || l[m - 1].seqNum + 1 < hi {
        BelowExpand(st.base, st.fields[..st.fieldIdx + 1], hi);
      }
    }
  }

  /** What a call did: k entries are gone and the numbers of the first m have been dealt with,
      as far as the iterations and the room for SACKs allow.  What the sender accepts of its
      SACKs are the numbers of the last one, and nothing if there is no room for that. */
  ghost predicate StaleDone(r: Receiver, r': Receiver, err: EtcpError, log: seq<Sack>,
                            i: nat, k: nat, m: nat, again: bool, maxSlots: nat, hi: int) {
    var l := r.staleQ;
    && k <= m <= k + 1 && 0 < m <= |l|
    && r' == r.(staleQ := l[k..], txQ := r'.txQ)
    && TxGrew(r.txQ, r'.txQ, log)
    && err in {NoError, TryAgain}
    && r.txQ.Inv()
    && (if err == NoError then Ends(l, i, k, m, again, maxSlots) && Room(r.txQ) > After(l, m).flushes
        else && (Ends(l, i, k, m, again, maxSlots) || Stuck(l, k, m, again, maxSlots))
             && Room(r.txQ) == After(l, m).flushes && Accepted(log) == [])
    && (err == NoError && Spread(l) ==> Flatten(Accepted(log)) == Named(l, k, m, again))
    && (err != NoError || again || Named(l, k, m, again) == [] || !After(l, m).long || l[m - 1].seqNum + 1 < hi
        ==> LogBelow(log, hi))
  }

  lemma CallIs(r: Receiver, maxAckPackets: int, maxSlots: nat, behind: SackField)
    requires r.txQ.Inv() && maxAckPackets > 0 && r.staleQ != [] && maxSlots > 0
    ensures var st, s := StaleStart(r, behind), StaleLoop(StaleStart(r, behind), 0, maxSlots);
            && st.txQ.Inv() && st.fieldIdx <= MAX_SACKS
            && (StaleAt(st, 0).Next? ==> s == StaleLoop(StaleAt(st, 0).st, 1, maxSlots))
            && var e := if s.Return? || s.st.unsent == 0 then s else StaleFlush(s.st, s.st.fieldIdx + 1, s.st.fieldIdx + 1);
               GenerateStaleAcks(r, maxAckPackets, maxSlots, behind) ==
               (r.(staleQ := e.st.staleQ, txQ := e.st.txQ), if e.Return? then e.err else NoError, e.st.log)
  {
    hide StaleAt, StaleFlush;
  }

  lemma StartVisits(r: Receiver, behind: SackField, hi: int)
    requires r.txQ.Inv() && r.staleQ != [] && Sorted(r.staleQ) && 0 <= r.staleQ[0].seqNum
    ensures var s := StaleAt(StaleStart(r, behind), 0);
            && s.Next? && Visiting(r.staleQ, s.st, 1, 0, 1, false) && Looping(r.staleQ, r.txQ, s.st, hi)
            && Memory(r.staleQ, 1, s.st, behind)
  {
    FirstVisit(r.staleQ, StaleStart(r, behind));
    FirstWrites(r, behind);
    hide AckHead, Visiting;
  }

  lemma FirstWrites(r: Receiver, behind: SackField)
    requires r.staleQ != []
    ensures VisitHead(StaleStart(r, behind), 0).st.fields[MAX_SACKS] == behind
  {
  }

  // A call that sends nothing after its loop, or cannot.
  lemma DoneQuietly(r: Receiver, st: StaleScan, err: EtcpError, i: nat, k: nat, m: nat, again: bool, maxSlots: nat, hi: int)
    requires Visiting(r.staleQ, st, i, k, m, again) && Looping(r.staleQ, r.txQ, st, hi)
    requires Ends(r.staleQ, i, k, m, again, maxSlots) || (err == TryAgain && Stuck(r.staleQ, k, m, again, maxSlots))
    requires r.txQ.Inv() && if err == TryAgain then Room(r.txQ) == After(r.staleQ, m).flushes
                            else err == NoError && st.unsent == 0 && Room(r.txQ) > After(r.staleQ, m).flushes
    requires st.unsent > 0 <==> again || !(m == k && After(r.staleQ, m).field == 13)
    ensures StaleDone(r, r.(staleQ := st.staleQ, txQ := st.txQ), err, st.log, i, k, m, again, maxSlots, hi)
  {
    hide Distinct, After, Collecting, Emptied, Again, TxGrew, LogBelow, Spread, Ends, Stuck, Room;
    AllRejected(st.log);
    FlattenNone();
  }

  // A call whose last SACK goes out.
  lemma DoneSending(r: Receiver, st: StaleScan, e: StaleScan, i: nat, k: nat, m: nat, again: bool, maxSlots: nat, hi: int)
    requires Visiting(r.staleQ, st, i, k, m, again) && Ends(r.staleQ, i, k, m, again, maxSlots) && st.unsent > 0
    requires Looping(r.staleQ, r.txQ, st, hi) && st.fieldIdx <= MAX_SACKS
    requires var sack := Sack(st.base, st.fieldIdx + 1, st.fields[..st.fieldIdx + 1]);
             && e.log == st.log + [sack] && TxGrew(r.txQ, e.txQ, e.log) && e.staleQ == st.staleQ
             && (Spread(r.staleQ) ==> Expand(sack.base, sack.fields) == Named(r.staleQ, k, m, again))
             && (again || !After(r.staleQ, m).long || r.staleQ[m - 1].seqNum + 1 < hi ==> SackBelow(sack, hi))
    requires Named(r.staleQ, k, m, again) != [] && r.txQ.Inv() && Room(r.txQ) > After(r.staleQ, m).flushes
    ensures StaleDone(r, r.(staleQ := e.staleQ, txQ := e.txQ), NoError, e.log, i, k, m, again, maxSlots, hi)
  {
    hide Distinct, After, Collecting, Emptied, Again, TxGrew, Spread, Ends, Named, SackBelow, Room;
    var sack := Sack(st.base, st.fieldIdx + 1, st.fields[..st.fieldIdx + 1]);
    AcceptedOne(st.log, sack);
  }

  lemma EmptyCall(r: Receiver, maxAckPackets: int, maxSlots: nat, behind: SackField)
    requires r.txQ.Inv() && (maxAckPackets <= 0 || r.staleQ == [] || maxSlots == 0)
    ensures GenerateStaleAcks(r, maxAckPackets, maxSlots, behind) == (r, NoError, [])
  {
    hide StaleAt, StaleFlush;
  }

  /** Any call that looks at the list, of any length: it never finds the list out of order, it
      removes only entries whose numbers it has dealt with, and the sender accepts at most its
      last SACK.  hi is any bound above the numbers in the list. */
  lemma StaleCall(r: Receiver, maxAckPackets: int, maxSlots: nat, behind: SackField, hi: int)
    returns (i: nat, k: nat, m: nat, again: bool)
    requires r.txQ.Inv() && Sorted(r.staleQ) && forall j | 0 <= j < |r.staleQ| :: 0 <= r.staleQ[j].seqNum < hi
    requires maxAckPackets > 0 && r.staleQ != [] && maxSlots > 0
    ensures var (r', err, log) := GenerateStaleAcks(r, maxAckPackets, maxSlots, behind);
            StaleDone(r, r', err, log, i, k, m, again, maxSlots, hi)
  {
    hide *;
    var l, tx := r.staleQ, r.txQ;
    CallIs(r, maxAckPackets, maxSlots, behind);
    StartVisits(r, behind, hi);
    var st0 := StaleAt(StaleStart(r, behind), 0).st;
    i, k, m, again := StaleLoopFacts(l, tx, st0, 1, 0, 1, false, maxSlots, hi, behind);
    var s := StaleLoop(st0, 1, maxSlots);
    LastSack(l, s.st, i, k, m, again, hi);
    LoopingIs(l, tx, s.st, hi);
    LogLength(l, s.st, i, k, m, again);
    RoomIs(l, tx, s.st, hi);
    if s.Return? {
      StuckState(l, s.st, i, k, m, again, maxSlots);
      DoneQuietly(r, s.st, TryAgain, i, k, m, again, maxSlots, hi);
    } else {
      EndState(l, s.st, i, k, m, again, maxSlots);
      if s.st.unsent == 0 {
        DoneQuietly(r, s.st, NoError, i, k, m, again, maxSlots, hi);
      } else {
        SendsLast(r, s.st, i, k, m, again, maxSlots, hi);
      }
    }
  }

  lemma SendsLast(r: Receiver, st: StaleScan, i: nat, k: nat, m: nat, again: bool, maxSlots: nat, hi: int)
    requires Sorted(r.staleQ) && forall j | 0 <= j < |r.staleQ| :: 0 <= r.staleQ[j].seqNum < hi
    requires Visiting(r.staleQ, st, i, k, m, again) && Ends(r.staleQ, i, k, m, again, maxSlots) && st.unsent > 0
    requires Looping(r.staleQ, r.txQ, st, hi) && st.fieldIdx <= MAX_SACKS && st.txQ.Inv()
    ensures var e := StaleFlush(st, st.fieldIdx + 1, st.fieldIdx + 1);
            StaleDone(r, r.(staleQ := e.st.staleQ, txQ := e.st.txQ), if e.Return? then e.err else NoError, e.st.log,
                      i, k, m, again, maxSlots, hi)
  {
    hide *;
    LastSack(r.staleQ, st, i, k, m, again, hi);
    SomeNamed(r.staleQ, st, i, k, m, again);
    LogLength(r.staleQ, st, i, k, m, again);
    RoomIs(r.staleQ, r.txQ, st, hi);
    SendKeeps(r.txQ, st, st.fieldIdx + 1);
    var e := StaleFlush(st, st.fieldIdx + 1, st.fieldIdx + 1);
    if e.Return? {
      DoneQuietly(r, st, TryAgain, i, k, m, again, maxSlots, hi);
    } else {
      DoneSending(r, st, e.st, i, k, m, again, maxSlots, hi);
    }
  }

  lemma SendKeeps(tx: PacketQ, st: StaleScan, n: nat)
    requires tx.Inv() && st.txQ.Inv() && TxGrew(tx, st.txQ, st.log) && n <= MAX_SACKS + 1
    ensures var e := StaleFlush(st, n, n);
            && (e.Return? <==> Room(st.txQ) == 0)
            && TxGrew(tx, e.st.txQ, e.st.log) && e.st.staleQ == st.staleQ
            && (if e.Next? then e.st.log == st.log + [Sack(st.base, n, st.fields[..n])]
                else e.Return? && e.err == TryAgain && e.st == st)
  {
    PushFacts(tx, st.txQ, st.log, Sack(st.base, n, st.fields[..n]));
    PushRoom(st.txQ, Sack(st.base, n, st.fields[..n]));
    hide PushSack, TxGrew, Room;
  }

  lemma LogLength(l: StaleQ, st: StaleScan, i: nat, k: nat, m: nat, again: bool)
    requires Visiting(l, st, i, k, m, again)
    ensures 0 < m <= |l|
    ensures |st.log| == After(l, m).flushes + if m == k && After(l, m).field == 13 then 1 else 0
    ensures again ==> !(m == k && After(l, m).field == 13)
  {
    hide After, Distinct, Collecting, Again, Emptied;
  }

  lemma RoomIs(l: StaleQ, tx: PacketQ, st: StaleScan, hi: int)
    requires Looping(l, tx, st, hi)
    ensures st.txQ.Inv() && tx.Inv() && Room(tx) == Room(st.txQ) + |st.log| && TxGrew(tx, st.txQ, st.log)
  {
  }

  lemma StuckState(l: StaleQ, st: StaleScan, i: nat, k: nat, m: nat, again: bool, maxSlots: nat)
    requires Visiting(l, st, i, k, m, again) && i < maxSlots && m == k + 1 && !again && 0 < m <= |l| && After(l, m).field == 13
    ensures Stuck(l, k, m, again, maxSlots)
  {
    hide Collecting, Emptied, Distinct, After;
  }

  lemma SomeNamed(l: StaleQ, st: StaleScan, i: nat, k: nat, m: nat, again: bool)
    requires Visiting(l, st, i, k, m, again) && st.unsent > 0 && Sorted(l)
    ensures Named(l, k, m, again) != []
  {
    AfterBounds(l, m);
    hide After, Distinct;
  }

  /** Which calls succeed: those with room for the SACKs that the list needs within that many
      iterations.  That is never more than one above the number of full buffers in the list. */
  lemma StaleRoom(r: Receiver, maxAckPackets: int, maxSlots: nat, behind: SackField, hi: int)
    requires r.txQ.Inv() && Sorted(r.staleQ) && forall j | 0 <= j < |r.staleQ| :: 0 <= r.staleQ[j].seqNum < hi
    ensures GenerateStaleAcks(r, maxAckPackets, maxSlots, behind).1 == NoError
            <==> maxAckPackets <= 0 || Room(r.txQ) >= StaleNeeded(r.staleQ, maxSlots)
    ensures r.staleQ != [] ==> StaleNeeded(r.staleQ, maxSlots) <= After(r.staleQ, |r.staleQ|).flushes + 1
  {
    hide *;
    var l := r.staleQ;
    NeededIs(l, maxSlots);
    if l != [] { NeededMost(l, |l|, maxSlots); }
    if maxAckPackets <= 0 || l == [] || maxSlots == 0 {
      EmptyCall(r, maxAckPackets, maxSlots, behind);
      NoneNeeded(l, |l|);
    } else {
      var i, k, m, again := StaleCall(r, maxAckPackets, maxSlots, behind, hi);
      var (r', err, log) := GenerateStaleAcks(r, maxAckPackets, maxSlots, behind);
      StaleDoneIs(r, r', err, log, i, k, m, again, maxSlots, hi);
      NeededEnds(l, i, k, m, again, maxSlots);
    }
  }

  lemma NeededIs(l: StaleQ, maxSlots: nat)
    ensures StaleNeeded(l, maxSlots) == SacksTo(l, |l|, maxSlots)
    ensures l == [] ==> StaleNeeded(l, maxSlots) == 0
  {
    hide Looked, After;
  }

  // ---- Which calls stay in their field buffer ----

  // The end of the loop, as far as the buffer is concerned.
  lemma LoopMemory(r: Receiver, maxSlots: nat, behind: SackField, hi: int)
    requires r.txQ.Inv() && Sorted(r.staleQ) && forall j | 0 <= j < |r.staleQ| :: 0 <= r.staleQ[j].seqNum < hi
    requires r.staleQ != [] && maxSlots > 0
    ensures StaleStart(r, behind).txQ.Inv()
    ensures var st := StaleLoop(StaleStart(r, behind), 0, maxSlots).st;
            if Overruns(r.staleQ, maxSlots) then st.fields[MAX_SACKS].count == 1 else st.fields[MAX_SACKS] == behind
  {
    hide *;
    var l, tx := r.staleQ, r.txQ;
    CallIs(r, 1, maxSlots, behind);
    StartVisits(r, behind, hi);
    var st0 := StaleAt(StaleStart(r, behind), 0).st;
    var i, k, m, again := StaleLoopFacts(l, tx, st0, 1, 0, 1, false, maxSlots, hi, behind);
    var s := StaleLoop(st0, 1, maxSlots);
    if s.Return? { StuckState(l, s.st, i, k, m, again, maxSlots); } else { EndState(l, s.st, i, k, m, again, maxSlots); }
    OverrunsEnds(l, i, k, m, again, maxSlots);
    MemoryIs(l, m, s.st, behind);
  }

  lemma MemoryIs(l: StaleQ, m: nat, st: StaleScan, behind: SackField)
    requires 0 < m <= |l| && Memory(l, m, st, behind)
    ensures if Written(l, m) then st.fields[MAX_SACKS].count == 1 else st.fields[MAX_SACKS] == behind
  {
  }

  lemma NoLoop(r: Receiver, maxAckPackets: int, maxSlots: nat, behind: SackField)
    requires r.txQ.Inv() && (maxAckPackets <= 0 || r.staleQ == [] || maxSlots == 0)
    ensures BehindAfter(r, maxAckPackets, maxSlots, behind) == behind
    ensures r.staleQ == [] || maxSlots == 0 ==> !Overruns(r.staleQ, maxSlots)
  {
    hide StaleAt, After;
  }

  lemma BehindIs(r: Receiver, maxAckPackets: int, maxSlots: nat, behind: SackField)
    requires r.txQ.Inv() && maxAckPackets > 0 && r.staleQ != [] && StaleStart(r, behind).txQ.Inv()
    ensures BehindAfter(r, maxAckPackets, maxSlots, behind) == StaleLoop(StaleStart(r, behind), 0, maxSlots).st.fields[MAX_SACKS]
  {
    hide StaleLoop;
  }

  /** Which calls write behind their field buffer: exactly those that open a thirteenth field.
      What is there before is lost then, whatever it was. */
  lemma OverrunsExact(r: Receiver, maxAckPackets: int, maxSlots: nat, hi: int)
    requires r.txQ.Inv() && Sorted(r.staleQ) && forall j | 0 <= j < |r.staleQ| :: 0 <= r.staleQ[j].seqNum < hi
    ensures (forall behind :: BehindAfter(r, maxAckPackets, maxSlots, behind) == behind)
            <==> maxAckPackets <= 0 || !Overruns(r.staleQ, maxSlots)
  {
    hide *;
    if maxAckPackets <= 0 || r.staleQ == [] || maxSlots == 0 {
      forall behind ensures BehindAfter(r, maxAckPackets, maxSlots, behind) == behind {
        NoLoop(r, maxAckPackets, maxSlots, behind);
      }
      NoLoop(r, maxAckPackets, maxSlots, SackField(0, 0));
    } else {
      forall behind ensures if Overruns(r.staleQ, maxSlots) then BehindAfter(r, maxAckPackets, maxSlots, behind).count == 1
                            else BehindAfter(r, maxAckPackets, maxSlots, behind) == behind {
        LoopMemory(r, maxSlots, behind, hi);
        BehindIs(r, maxAckPackets, maxSlots, behind);
      }
      assert BehindAfter(r, maxAckPackets, maxSlots, SackField(0, 0)) != SackField(0, 0) <==> Overruns(r.staleQ, maxSlots);
    }
  }

  // ---- Which calls are exact, and which are sound ----

  lemma NamedExact(l: StaleQ, i: nat, k: nat, m: nat, again: bool, maxSlots: nat)
    requires Sorted(l) && Ends(l, i, k, m, again, maxSlots)
    ensures Named(l, k, m, again) == Distinct(l, m) <==> !Flushes(l, maxSlots)
  {
    FlushesEnds(l, i, k, m, again, maxSlots);
    AfterBounds(l, m);
    DistinctFirst(l, m);
    if again {
      AfterMono(l, m - 1, m);
      assert l[0].seqNum <= l[m - 2].seqNum;
    }
    if After(l, m).flushes == 0 { NamedDistinct(l, m); }
    hide After, Distinct, Flushes;
    assert After(l, m).named[0] in After(l, m).named;
  }

  /** Which calls get everything across: the sender hears of exactly the numbers a call has
      dealt with if and only if there is room for what it has to send and the call does not
      have to send a full buffer from inside its loop, for that one is refused.  For a call that
      writes behind its buffer this takes the write to be harmless. */
  lemma StaleExact(r: Receiver, maxAckPackets: int, maxSlots: nat, behind: SackField, hi: int)
    returns (i: nat, k: nat, m: nat, again: bool)
    requires r.txQ.Inv() && Sorted(r.staleQ) && forall j | 0 <= j < |r.staleQ| :: 0 <= r.staleQ[j].seqNum < hi
    requires maxAckPackets > 0 && r.staleQ != [] && maxSlots > 0
    requires Spread(r.staleQ)
    ensures var (r', err, log) := GenerateStaleAcks(r, maxAckPackets, maxSlots, behind);
            && StaleDone(r, r', err, log, i, k, m, again, maxSlots, hi)
            && 0 < m <= |r.staleQ|
            && (Flatten(Accepted(log)) == Distinct(r.staleQ, m)
                <==> !Flushes(r.staleQ, maxSlots) && Room(r.txQ) >= StaleNeeded(r.staleQ, maxSlots))
  {
    hide *;
    i, k, m, again := StaleCall(r, maxAckPackets, maxSlots, behind, hi);
    var (r', err, log) := GenerateStaleAcks(r, maxAckPackets, maxSlots, behind);
    StaleDoneIs(r, r', err, log, i, k, m, again, maxSlots, hi);
    NeededEnds(r.staleQ, i, k, m, again, maxSlots);
    DistinctFirst(r.staleQ, m);
    FlattenNone();
    if err == NoError { NamedExact(r.staleQ, i, k, m, again, maxSlots); }
  }

  lemma StaleDoneIs(r: Receiver, r': Receiver, err: EtcpError, log: seq<Sack>,
               i: nat, k: nat, m: nat, again: bool, maxSlots: nat, hi: int)
    requires StaleDone(r, r', err, log, i, k, m, again, maxSlots, hi)
    ensures k <= m <= k + 1 && 0 < m <= |r.staleQ| && err in {NoError, TryAgain}
    ensures r' == r.(staleQ := r.staleQ[k..], txQ := r'.txQ) && TxGrew(r.txQ, r'.txQ, log)
    ensures r.txQ.Inv()
    ensures if err == NoError then Ends(r.staleQ, i, k, m, again, maxSlots) && Room(r.txQ) > After(r.staleQ, m).flushes
            else && (Ends(r.staleQ, i, k, m, again, maxSlots) || Stuck(r.staleQ, k, m, again, maxSlots))
                 && Room(r.txQ) == After(r.staleQ, m).flushes && Accepted(log) == []
    ensures err == NoError && Spread(r.staleQ) ==> Flatten(Accepted(log)) == Named(r.staleQ, k, m, again)
    ensures (err != NoError || again || Named(r.staleQ, k, m, again) == []
             || !After(r.staleQ, m).long || r.staleQ[m - 1].seqNum + 1 < hi) ==> LogBelow(log, hi)
  {
    hide Ends, Stuck, Named, After, LogBelow, TxGrew, Spread, Room;
  }

  /** A call names nothing from hi on unless it oversteps. */
  lemma StaleSound(r: Receiver, maxAckPackets: int, maxSlots: nat, behind: SackField, hi: int)
    returns (k: nat)
    requires r.txQ.Inv() && Sorted(r.staleQ) && forall j | 0 <= j < |r.staleQ| :: 0 <= r.staleQ[j].seqNum < hi
    requires maxAckPackets <= 0 || !Oversteps(r.staleQ, maxSlots, hi)
    ensures var (r', err, log) := GenerateStaleAcks(r, maxAckPackets, maxSlots, behind);
            && k <= |r.staleQ| && r' == r.(staleQ := r.staleQ[k..], txQ := r'.txQ) && TxGrew(r.txQ, r'.txQ, log)
            && err in {NoError, TryAgain} && LogBelow(log, hi)
  {
    hide *;
    k := 0;
    if maxAckPackets <= 0 || r.staleQ == [] || maxSlots == 0 {
      EmptyCall(r, maxAckPackets, maxSlots, behind);
      NothingDone(r, hi);
    } else {
      var i, m, again;
      i, k, m, again := StaleCall(r, maxAckPackets, maxSlots, behind, hi);
      var (r', err, log) := GenerateStaleAcks(r, maxAckPackets, maxSlots, behind);
      StaleDoneIs(r, r', err, log, i, k, m, again, maxSlots, hi);
      if err == NoError {
        OverstepsEnds(r.staleQ, i, k, m, again, maxSlots, hi);
        NamedNone(r.staleQ, k, m, again);
      }
    }
  }

  lemma NothingDone(r: Receiver, hi: int)
    requires r.txQ.Inv()
    ensures r == r.(staleQ := r.staleQ[0..], txQ := r.txQ) && TxGrew(r.txQ, r.txQ, []) && LogBelow([], hi)
  {
    assert r.staleQ[0..] == r.staleQ;
  }

  lemma NamedNone(l: StaleQ, k: nat, m: nat, again: bool)
    requires 0 < m <= |l|
    ensures !again && m == k && After(l, m).field == 13 ==> Named(l, k, m, again) == []
  {
    hide After;
  }

  /** Which calls are sound: those that do not overstep, or have no room to send what would.  A
      call oversteps when the first number it finds after sending a full buffer is two above the
      last one: it counts that number on both of its visits.  It has written behind its buffer
      by then, which is taken to be harmless here too. */
  lemma StaleSoundExact(r: Receiver, maxAckPackets: int, maxSlots: nat, behind: SackField, hi: int)
    requires r.txQ.Inv() && Sorted(r.staleQ) && forall j | 0 <= j < |r.staleQ| :: 0 <= r.staleQ[j].seqNum < hi
    requires maxAckPackets > 0 && Spread(r.staleQ)
    ensures LogBelow(GenerateStaleAcks(r, maxAckPackets, maxSlots, behind).2, hi)
            <==> !Oversteps(r.staleQ, maxSlots, hi) || Room(r.txQ) < StaleNeeded(r.staleQ, maxSlots)
  {
    hide *;
    var l := r.staleQ;
    if !Oversteps(l, maxSlots, hi) {
      var _ := StaleSound(r, maxAckPackets, maxSlots, behind, hi);
    } else {
      OverstepsSome(l, maxSlots, hi);
      var i, k, m, again := StaleCall(r, maxAckPackets, maxSlots, behind, hi);
      var (r', err, log) := GenerateStaleAcks(r, maxAckPackets, maxSlots, behind);
      StaleDoneIs(r, r', err, log, i, k, m, again, maxSlots, hi);
      NeededEnds(l, i, k, m, again, maxSlots);
      if err == NoError {
        OverstepsEnds(l, i, k, m, again, maxSlots, hi);
        LongNames(l, m);
        NamedSome(l, k, m, again);
        if LogBelow(log, hi) { AcceptedBelow(log, hi); }
      }
    }
  }

  lemma OverstepsSome(l: StaleQ, maxSlots: nat, hi: int)
    requires Oversteps(l, maxSlots, hi) && Sorted(l)
    ensures l != [] && maxSlots > 0
  {
    var m :| 0 < m <= |l| && After(l, m).long && l[m - 1].seqNum + 1 >= hi && Due(l, m) <= maxSlots;
    DistinctFirst(l, m);
    hide After, Distinct;
  }

  lemma NamedSome(l: StaleQ, k: nat, m: nat, again: bool)
    requires 0 < m <= |l| && !again && !(m == k && After(l, m).field == 13)
    ensures Named(l, k, m, again) == After(l, m).named
  {
    hide After;
  }

  // What is accepted is part of what is sent.
  lemma {:induction false} AcceptedBelow(log: seq<Sack>, hi: int)
    requires LogBelow(log, hi)
    ensures forall t | t in Flatten(Accepted(log)) :: t < hi
  {
    hide Expand;
    if log != [] {
      var init, last := log[..|log| - 1], Last(log);
      assert log == init + [last] && last in log;
      assert forall s | s in init :: s in log;
      AcceptedBelow(init, hi);
      if Accepts(last) {
        FlattenSnoc(Accepted(init), last);
        assert SackBelow(last, hi);
      } else {
        assert Accepted(log) == Accepted(init);
      }
    } else {
      FlattenNone();
    }
  }
}
