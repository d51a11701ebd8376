/** Where a call of generateStaleAcks ends, how many SACKs it needs and what it leaves its field
    buffer for: all told from the list and the number of iterations, before the call. */
module StaleEnds {
  import opened LinkedList
  import opened Receiver
  import opened StaleRuns

  // ---- Where a call ends, before it is made ----

  // How many iterations it takes until the number of the m-th entry has been dealt with.
  function Due(l: StaleQ, m: nat): nat
    requires 0 < m <= |l|
  {
    |Distinct(l, m)| + After(l, m).doubles + m - 1
  }

  // A call of maxSlots iterations has to send a full buffer from inside its loop.
  predicate Flushes(l: StaleQ, maxSlots: nat) {
    exists m :: 0 < m <= |l| && After(l, m).field == 13 && Due(l, m) < maxSlots
  }

  // A call of maxSlots iterations ends with a field that names hi, or a number beyond it.
  predicate Oversteps(l: StaleQ, maxSlots: nat, hi: int) {
    exists m :: 0 < m <= |l| && After(l, m).long && l[m - 1].seqNum + 1 >= hi && Due(l, m) <= maxSlots
  }

  // A call of maxSlots iterations opens a thirteenth field, in a buffer that has twelve.
  predicate Overruns(l: StaleQ, maxSlots: nat) {
    exists m :: 0 < m <= |l| && After(l, m).field == 13 && Due(l, m) <= maxSlots
  }

  // The number of the m-th entry is one that is looked at again, after a full buffer.
  predicate Repeated(l: StaleQ, m: nat)
    requires 0 < m <= |l|
  {
    m > 1 && After(l, m - 1).field == 13 && l[m - 1].seqNum >= l[m - 2].seqNum + 2
  }

  // How many iterations it takes until that number has been looked at.
  function Looked(l: StaleQ, m: nat): nat
    requires 0 < m <= |l|
  {
    Due(l, m) - One(Repeated(l, m))
  }

  // How many SACKs it takes to get to the last of the first m entries that is looked at, and
  // to send what is open then.
  function SacksTo(l: StaleQ, m: nat, maxSlots: nat): nat
    requires m <= |l|
  {
    if m == 0 then 0
    else if Looked(l, m) <= maxSlots then After(l, m).flushes + 1
    else SacksTo(l, m - 1, maxSlots)
  }

  function StaleNeeded(l: StaleQ, maxSlots: nat): nat { SacksTo(l, |l|, maxSlots) }

  // The end of a call on list l, as far as the list tells.
  ghost predicate Ends(l: StaleQ, i: nat, k: nat, m: nat, again: bool, maxSlots: nat) {
    && k <= m <= k + 1 && 0 < m <= |l| && i <= maxSlots && (i == maxSlots || k == |l|)
    && (m == k + 1 && k > 0 ==> l[k - 1].seqNum < l[k].seqNum)
    && i + One(again) == |Distinct(l, m)| + After(l, m).doubles + k
    && (again ==> m == k + 1 && Repeated(l, m))
  }

  // The end of a call that found no room for a full buffer inside its loop.
  ghost predicate Stuck(l: StaleQ, k: nat, m: nat, again: bool, maxSlots: nat) {
    m == k + 1 && m <= |l| && !again && After(l, m).field == 13 && Due(l, m) < maxSlots
  }

  lemma {:induction false} AfterMono(l: StaleQ, a: nat, b: nat)
    requires Sorted(l) && 0 < a <= b <= |l|
    ensures |Distinct(l, a)| <= |Distinct(l, b)| && After(l, a).doubles <= After(l, b).doubles
    ensures l[a - 1].seqNum < l[b - 1].seqNum ==> |Distinct(l, a)| < |Distinct(l, b)|
    ensures l[a - 1].seqNum == l[b - 1].seqNum ==> After(l, a) == After(l, b) && Distinct(l, a) == Distinct(l, b)
    ensures l[a - 1].seqNum < l[b - 1].seqNum && After(l, a).field == 13 ==> After(l, b).flushes > 0
    ensures After(l, a).flushes <= After(l, b).flushes
    decreases b - a
  {
    if a < b {
      hide Distinct;
      AfterMono(l, a, b - 1);
      DistinctStep(l, b - 1);
    }
  }

  lemma DistinctStep(l: StaleQ, k: nat)
    requires Sorted(l) && 0 < k < |l|
    ensures if l[k].seqNum == l[k - 1].seqNum then Distinct(l, k + 1) == Distinct(l, k)
            else |Distinct(l, k + 1)| == |Distinct(l, k)| + 1
  {
    DistinctLast(l, k);
  }

  // A buffer sent before entry b was filled by an earlier number.
  lemma {:induction false} FilledBy(l: StaleQ, b: nat) returns (a: nat)
    requires Sorted(l) && 0 < b <= |l| && After(l, b).flushes > 0
    ensures 0 < a < b && After(l, a).field == 13 && l[a - 1].seqNum < l[b - 1].seqNum
    decreases b
  {
    a := b - 1;
    if After(l, a).flushes > 0 && (After(l, a).field != 13 || l[a - 1].seqNum == l[b - 1].seqNum) {
      a := FilledBy(l, b - 1);
    }
  }

  lemma FlushesEnds(l: StaleQ, i: nat, k: nat, m: nat, again: bool, maxSlots: nat)
    requires Sorted(l) && Ends(l, i, k, m, again, maxSlots)
    ensures Flushes(l, maxSlots) <==> After(l, m).flushes > 0 || (m == k && After(l, m).field == 13)
  {
    hide Distinct, Visit, After;
    if After(l, m).flushes > 0 {
      var a := FilledBy(l, m);
      AfterMono(l, a, m);
      assert Due(l, a) < maxSlots;
    }
    if m == k && After(l, m).field == 13 { assert Due(l, m) < maxSlots; }
    if Flushes(l, maxSlots) {
      var a :| 0 < a <= |l| && After(l, a).field == 13 && Due(l, a) < maxSlots;
      if again { AfterMono(l, m - 1, m); }
      if a <= m { AfterMono(l, a, m); } else { AfterMono(l, m, a); }
      assert a <= m ==> l[a - 1].seqNum <= l[m - 1].seqNum;
      assert a < m == k + 1 ==> l[a - 1].seqNum <= l[k - 1].seqNum;
    }
  }

  lemma OverrunsEnds(l: StaleQ, i: nat, k: nat, m: nat, again: bool, maxSlots: nat)
    requires Sorted(l) && (Ends(l, i, k, m, again, maxSlots) || Stuck(l, k, m, again, maxSlots)) && 0 < m <= |l|
    ensures Overruns(l, maxSlots) <==> Written(l, m)
  {
    hide Distinct, Visit, After;
    if After(l, m).flushes > 0 {
      var a := FilledBy(l, m);
      AfterMono(l, a, m);
      if again { AfterMono(l, a, m - 1); }
      assert Due(l, a) <= maxSlots;
    } else if After(l, m).field == 13 {
      if again { AfterMono(l, m - 1, m); }
      assert Due(l, m) <= maxSlots;
    }
    if Overruns(l, maxSlots) {
      var a :| 0 < a <= |l| && After(l, a).field == 13 && Due(l, a) <= maxSlots;
      if again { AfterMono(l, m - 1, m); }
      if a <= m { AfterMono(l, a, m); } else { AfterMono(l, m, a); }
      assert a <= m ==> l[a - 1].seqNum <= l[m - 1].seqNum;
    }
  }

  // What is looked at in time is paid for.
  lemma {:induction false} NeededLeast(l: StaleQ, a: nat, m: nat, maxSlots: nat)
    requires Sorted(l) && 0 < m <= a <= |l| && Looked(l, m) <= maxSlots
    ensures SacksTo(l, a, maxSlots) > After(l, m).flushes
    decreases a
  {
    hide Distinct, Visit, After, Looked;
    if m < a {
      AfterMono(l, m, a);
      if Looked(l, a) > maxSlots { NeededLeast(l, a - 1, m, maxSlots); }
    }
  }

  lemma LookedEnds(l: StaleQ, i: nat, k: nat, m: nat, again: bool, maxSlots: nat)
    requires Sorted(l) && Ends(l, i, k, m, again, maxSlots)
    ensures Looked(l, m) <= maxSlots
    ensures forall a | m < a <= |l| && Looked(l, a) <= maxSlots :: After(l, a) == After(l, m)
  {
    hide Distinct, Visit, After;
    forall a | m < a <= |l| && Looked(l, a) <= maxSlots ensures After(l, a) == After(l, m) {
      AfterMono(l, m, a);
      AfterMono(l, m, a - 1);
      if Repeated(l, a) { RepeatedTwice(l, a); }
    }
  }

  lemma RepeatedTwice(l: StaleQ, m: nat)
    requires 0 < m <= |l| && Repeated(l, m)
    ensures After(l, m).doubles == After(l, m - 1).doubles + 1
  {
  }

  lemma {:induction false} NeededAt(l: StaleQ, a: nat, m: nat, maxSlots: nat)
    requires 0 < m <= a <= |l| && Looked(l, m) <= maxSlots
    requires forall b | m < b <= |l| && Looked(l, b) <= maxSlots :: After(l, b) == After(l, m)
    ensures SacksTo(l, a, maxSlots) == After(l, m).flushes + 1
    decreases a
  {
    hide Distinct, Visit, After, Looked;
    if m < a && Looked(l, a) > maxSlots { NeededAt(l, a - 1, m, maxSlots); }
  }

  /** The SACKs that a call needs: one for every buffer it fills before it ends, and one more. */
  lemma NeededEnds(l: StaleQ, i: nat, k: nat, m: nat, again: bool, maxSlots: nat)
    requires Sorted(l) && (Ends(l, i, k, m, again, maxSlots) || Stuck(l, k, m, again, maxSlots)) && 0 < m <= |l|
    ensures Ends(l, i, k, m, again, maxSlots) ==> StaleNeeded(l, maxSlots) == After(l, m).flushes + 1
    ensures StaleNeeded(l, maxSlots) > After(l, m).flushes
  {
    hide Distinct, Visit, After, Ends;
    if Ends(l, i, k, m, again, maxSlots) {
      LookedEnds(l, i, k, m, again, maxSlots);
      NeededAt(l, |l|, m, maxSlots);
    } else {
      NeededLeast(l, |l|, m, maxSlots);
    }
  }

  lemma OverstepsEnds(l: StaleQ, i: nat, k: nat, m: nat, again: bool, maxSlots: nat, hi: int)
    requires Sorted(l) && Ends(l, i, k, m, again, maxSlots) && forall j | 0 <= j < |l| :: l[j].seqNum < hi
    ensures Oversteps(l, maxSlots, hi)
            <==> !again && !(m == k && After(l, m).field == 13) && After(l, m).long && l[m - 1].seqNum + 1 >= hi
  {
    AfterBounds(l, m);
    hide Distinct, Visit, After;
    if !again && After(l, m).long && l[m - 1].seqNum + 1 >= hi { assert Due(l, m) <= maxSlots; }
    if Oversteps(l, maxSlots, hi) {
      var a :| 0 < a <= |l| && After(l, a).long && l[a - 1].seqNum + 1 >= hi && Due(l, a) <= maxSlots;
      if a <= m { AfterMono(l, a, m); } else { AfterMono(l, m, a); }
      assert if a <= m then l[a - 1].seqNum <= l[m - 1].seqNum else l[m - 1].seqNum <= l[a - 1].seqNum;
    }
  }

  // As long as no buffer has been sent, the fields hold the numbers dealt with.
  lemma {:induction false} NamedDistinct(l: StaleQ, m: nat)
    requires Sorted(l) && 0 < m <= |l| && After(l, m).flushes == 0
    ensures After(l, m).named == Distinct(l, m) && After(l, m).doubles == 0
  {
    if m > 1 {
      NamedDistinct(l, m - 1);
      AfterBounds(l, m - 1);
      DistinctLast(l, m - 1);
    } else {
      OneDistinct(l);
    }
  }

  lemma {:induction false} DistinctFirst(l: StaleQ, m: nat)
    requires 0 < m <= |l|
    ensures Distinct(l, m) != [] && Distinct(l, m)[0] == l[0].seqNum
  {
    if m > 1 { DistinctFirst(l, m - 1); } else { OneDistinct(l); }
  }

  // A field that is too long names the number behind the last one.
  lemma {:induction false} LongNames(l: StaleQ, m: nat)
    requires 0 < m <= |l| && After(l, m).long
    ensures l[m - 1].seqNum + 1 in After(l, m).named
  {
    if m > 1 {
      var p, a, b := After(l, m - 1), l[m - 2].seqNum, l[m - 1].seqNum;
      if b == a {
        LongNames(l, m - 1);
      } else if p.field == 13 {
        assert [b, b + 1][1] == b + 1;
      } else {
        assert After(l, m).named == p.named + [b + 1];
      }
    }
  }

  /** How many entries go: at least one in three iterations, and one in two if no buffer has to
      be sent from inside the loop, or the list is used up. */
  lemma EntriesGo(l: StaleQ, i: nat, k: nat, m: nat, again: bool, maxSlots: nat)
    requires Sorted(l) && Ends(l, i, k, m, again, maxSlots)
    ensures k == |l| || maxSlots <= 3 * k + 1
    ensures k == |l| || Flushes(l, maxSlots) || maxSlots <= 2 * k + 1
  {
    FewDoubles(l, m);
    FlushesEnds(l, i, k, m, again, maxSlots);
    if After(l, m).flushes == 0 { NamedDistinct(l, m); }
    hide After, Distinct, Flushes;
  }

  lemma {:induction false} FewDoubles(l: StaleQ, m: nat)
    requires 0 < m <= |l| && Sorted(l)
    ensures |Distinct(l, m)| <= m && After(l, m).doubles < |Distinct(l, m)|
  {
    if m > 1 {
      FewDoubles(l, m - 1);
      hide Distinct;
      DistinctStep(l, m - 1);
    } else {
      OneDistinct(l);
    }
  }

  /** The numbers acknowledged are those of the entries that were visited. */
  lemma {:induction false} DistinctExact(l: StaleQ, m: nat)
    requires m <= |l| && Sorted(l)
    ensures forall t :: t in Distinct(l, m) <==> exists j :: 0 <= j < m && l[j].seqNum == t
    ensures forall j, k | 0 <= j < k < |Distinct(l, m)| :: Distinct(l, m)[j] < Distinct(l, m)[k]
  {
    if m > 0 {
      DistinctExact(l, m - 1);
      if m > 1 { DistinctLast(l, m - 1); }
      var init := Distinct(l, m - 1);
      assert forall k | 0 <= k < |init| :: init[k] in init;
    }
  }

  // ---- Calls that are short enough ----

  // The maximal runs of consecutive numbers among the first m entries.
  function NumberRuns(l: StaleQ, m: nat): nat
    requires m <= |l|
  {
    if m <= 1 then m else NumberRuns(l, m - 1) + if l[m - 1].seqNum <= l[m - 2].seqNum + 1 then 0 else 1
  }

  lemma {:induction false} FieldIsRun(l: StaleQ, m: nat)
    requires Sorted(l) && 0 < m <= |l|
    ensures After(l, m).flushes == 0 ==> After(l, m).field == NumberRuns(l, m)
    ensures After(l, m).field == 13 || After(l, m).flushes > 0 ==> NumberRuns(l, m) >= 13
    ensures |Distinct(l, m)| >= After(l, m).field + 11 * After(l, m).flushes
  {
    if m > 1 {
      FieldIsRun(l, m - 1);
      AfterBounds(l, m - 1);
      hide Distinct;
      DistinctStep(l, m - 1);
    } else {
      OneDistinct(l);
    }
  }

  lemma {:induction false} RunsMono(l: StaleQ, a: nat, b: nat)
    requires a <= b <= |l|
    ensures NumberRuns(l, a) <= NumberRuns(l, b)
    decreases b
  {
    if a < b { RunsMono(l, a, b - 1); }
  }

  /** A call of at most 24 iterations stays in its field buffer, and so does one over a list of
      at most twelve runs of consecutive numbers, however long they are. */
  lemma ShortCallStays(l: StaleQ, maxSlots: nat)
    requires Sorted(l) && (maxSlots <= 24 || NumberRuns(l, |l|) <= 12)
    ensures !Overruns(l, maxSlots)
  {
    if Overruns(l, maxSlots) {
      var m :| 0 < m <= |l| && After(l, m).field == 13 && Due(l, m) <= maxSlots;
      RunsMono(l, m, |l|);
      FewDoubles(l, m);
      FieldIsRun(l, m);
    }
  }

  /** One iteration more is not enough to send a full buffer from inside the loop. */
  lemma ShortCallHolds(l: StaleQ, maxSlots: nat)
    requires Sorted(l) && (maxSlots <= 25 || NumberRuns(l, |l|) <= 12)
    ensures !Flushes(l, maxSlots)
  {
    if Flushes(l, maxSlots) {
      var m :| 0 < m <= |l| && After(l, m).field == 13 && Due(l, m) < maxSlots;
      RunsMono(l, m, |l|);
      FewDoubles(l, m);
      FieldIsRun(l, m);
    }
  }

  lemma LongAfterFlush(l: StaleQ, m: nat) returns (a: nat)
    requires Sorted(l) && 0 < m <= |l| && After(l, m).long
    ensures 0 < a < m && After(l, a).field == 13 && Due(l, a) < Due(l, m)
  {
    AfterBounds(l, m);
    a := FilledBy(l, m);
    AfterMono(l, a, m);
    hide After, Distinct;
  }

  /** Of the three ways to go wrong a call writes behind its buffer first: only then can it have
      to send a full buffer from inside its loop, and only after that can it overstep. */
  lemma FirstOverruns(l: StaleQ, maxSlots: nat, hi: int)
    requires Sorted(l)
    ensures Oversteps(l, maxSlots, hi) ==> Flushes(l, maxSlots)
    ensures Flushes(l, maxSlots) ==> Overruns(l, maxSlots)
  {
    hide After, Distinct;
    if Oversteps(l, maxSlots, hi) {
      var m :| 0 < m <= |l| && After(l, m).long && l[m - 1].seqNum + 1 >= hi && Due(l, m) <= maxSlots;
      var a := LongAfterFlush(l, m);
    }
  }

  lemma {:induction false} NoneNeeded(l: StaleQ, m: nat)
    requires m <= |l|
    ensures SacksTo(l, m, 0) == 0
  {
    if m > 0 { NoneNeeded(l, m - 1); }
  }

  lemma {:induction false} NeededMost(l: StaleQ, m: nat, maxSlots: nat)
    requires 0 < m <= |l| && Sorted(l)
    ensures SacksTo(l, m, maxSlots) <= After(l, m).flushes + 1
  {
    hide Looked, Distinct;
    if m > 1 {
      AfterMono(l, m - 1, m);
      NeededMost(l, m - 1, maxSlots);
    }
  }

  lemma {:induction false} StaysAt(l: StaleQ, m: nat, maxSlots: nat)
    requires Sorted(l) && !Overruns(l, maxSlots) && 0 < m <= |l| && maxSlots > 0
    ensures SacksTo(l, m, maxSlots) == 1
  {
    hide Distinct, Visit, After, Overruns;
    if Looked(l, m) <= maxSlots {
      NoFlush(l, m, maxSlots);
    } else if m > 1 {
      StaysAt(l, m - 1, maxSlots);
    } else {
      FirstLooked(l);
    }
  }

  lemma FirstLooked(l: StaleQ)
    requires l != []
    ensures Looked(l, 1) == 1
  {
    OneDistinct(l);
  }

  lemma NoFlush(l: StaleQ, m: nat, maxSlots: nat)
    requires Sorted(l) && !Overruns(l, maxSlots) && 0 < m <= |l| && Looked(l, m) <= maxSlots
    ensures After(l, m).flushes == 0
  {
    hide Distinct, Visit, After;
    if After(l, m).flushes > 0 { var a := FilledBefore(l, m); }
  }

  lemma FilledBefore(l: StaleQ, m: nat) returns (a: nat)
    requires Sorted(l) && 0 < m <= |l| && After(l, m).flushes > 0
    ensures 0 < a < m && After(l, a).field == 13 && Due(l, a) < Looked(l, m)
  {
    hide Distinct, Visit, After;
    a := FilledBy(l, m);
    AfterMono(l, a, m - 1);
    AfterMono(l, a, m);
    if Repeated(l, m) { RepeatedTwice(l, m); }
  }

  /** A call that stays in its buffer sends one SACK at most. */
  lemma StaysNeedsOne(l: StaleQ, maxSlots: nat)
    requires Sorted(l) && !Overruns(l, maxSlots)
    ensures StaleNeeded(l, maxSlots) == if l == [] || maxSlots == 0 then 0 else 1
  {
    if l != [] && maxSlots > 0 { StaysAt(l, |l|, maxSlots); } else { NoneNeeded(l, |l|); }
  }
}
