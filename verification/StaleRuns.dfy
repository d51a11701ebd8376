/** The loop of generateStaleAcks, followed over the list: every entry is looked at twice, a
    SACK names the runs of consecutive numbers in it, and a full buffer of twelve runs goes out
    while the thirteenth is being looked at. */
module StaleRuns {
  import opened Basics
  import opened RingWindow
  import opened Packets
  import opened LinkedList
  import opened Sender
  import opened Receiver
  import opened AckProofs
  import opened AckRuns
  import opened Stale

  // ---- How far a call gets ----

  // The different numbers of the first m entries, in order.
  function Distinct(l: StaleQ, m: nat): (r: seq<int>)
    requires m <= |l|
    ensures |r| <= m && (m > 0 ==> r != [])
  {
    if m == 0 then []
    else
      var init := Distinct(l, m - 1);
      if init != [] && Last(init) == l[m - 1].seqNum then init else init + [l[m - 1].seqNum]
  }

  lemma {:induction false} DistinctLast(l: StaleQ, m: nat)
    requires 0 < m <= |l|
    ensures Last(Distinct(l, m)) == l[m - 1].seqNum
  {
  }

  /** Where a call stands once it has dealt with a number: the field that holds it, counted
      from 1 since the last SACK, and whether that field names one number too many; how many
      numbers so far it has acknowledged twice; how many full buffers it has sent before; and
      the numbers in the fields collected since then. */
  datatype Progress = Progress(field: nat, long: bool, doubles: nat, flushes: nat, named: seq<int>)

  /** From number a to the next entry b.  A thirteenth field means that the buffer is sent, with
      twelve fields, before the entry of a goes.  After that no field is in progress, and the
      call still expects the number behind a: if it finds another one it opens a field for it,
      and then looks at it again. */
  function Visit(p: Progress, a: int, b: int): Progress {
    if b == a then p
    else if p.field == 13 then
      if b == a + 1 then Progress(1, false, p.doubles, p.flushes + 1, [b])
      else if b == a + 2 then Progress(1, true, p.doubles + 1, p.flushes + 1, [b, b + 1])
      else Progress(2, false, p.doubles + 1, p.flushes + 1, [b, b])
    else if b == a + 1 then p.(named := p.named + [if p.long then b + 1 else b])
    else p.(field := p.field + 1, long := false, named := p.named + [b])
  }

  function After(l: StaleQ, m: nat): Progress
    requires 0 < m <= |l|
  {
    if m == 1 then Progress(1, false, 0, 0, [l[0].seqNum])
    else Visit(After(l, m - 1), l[m - 2].seqNum, l[m - 1].seqNum)
  }

  lemma {:induction false} AfterBounds(l: StaleQ, m: nat)
    requires 0 < m <= |l| && Sorted(l)
    ensures var p := After(l, m);
            && 1 <= p.field <= 13
            && (p.long ==> p.field == 1 && p.flushes > 0 && l[m - 1].seqNum > l[0].seqNum)
            && (p.flushes > 0 ==> forall t | t in p.named :: t > l[0].seqNum)
            && p.named != []
  {
    if m > 1 { AfterBounds(l, m - 1); }
  }

  // ---- The state of the loop ----

  // Offsets and counts do not wrap around.
  predicate Spread(l: StaleQ) { l != [] ==> Last(l).seqNum - l[0].seqNum < TWO_TO_THE_32 - 1 }

  function One(b: bool): nat { if b then 1 else 0 }

  // Fields are being collected, and the last number dealt with is a.
  ghost predicate Collecting(l: StaleQ, st: StaleScan, p: Progress, a: int) {
    && l != [] && st.inProgress && st.unsent > 0 && st.fieldIdx == p.field - 1 && st.fieldIdx <= MAX_SACKS
    && st.expected == a + 1
    && Below(st.base, st.fields[..st.fieldIdx + 1], st.expected + One(p.long))
    && st.base >= l[0].seqNum && (p.long ==> st.base > l[0].seqNum)
    && (Spread(l) ==>
          && Expand(st.base, st.fields[..st.fieldIdx + 1]) == p.named
          && st.base + st.fields[st.fieldIdx].offset + st.fields[st.fieldIdx].count == st.expected + One(p.long))
  }

  // A full buffer has been sent, and the entry of a is gone.
  ghost predicate Emptied(st: StaleScan, a: int) {
    st.fieldIdx == 0 && !st.inProgress && st.unsent == 0 && st.expected == a + 1
  }

  // After that, b has been acknowledged once and will be looked at again.
  ghost predicate Again(l: StaleQ, st: StaleScan, a: int, b: int) {
    && l != [] && b >= a + 2 && b > l[0].seqNum && b >= 0
    && st.fieldIdx == 0 && st.inProgress && st.unsent > 0 && st.expected == a + 2
    && st.base == b && st.fields[0] == SackField(0, 1)
  }

  /** Before iteration i > 0 of a call on list l: k entries have been removed, and the numbers
      of the first m have been acknowledged, where m is k or k + 1; the last of them will be
      acknowledged once more if again holds. */
  ghost predicate Visiting(l: StaleQ, st: StaleScan, i: nat, k: nat, m: nat, again: bool) {
    && k <= m <= k + 1 && 0 < m <= |l| && st.staleQ == l[k..]
    && (m == k + 1 && k > 0 ==> l[k - 1].seqNum < l[k].seqNum)
    && i + One(again) == |Distinct(l, m)| + After(l, m).doubles + k
    && (forall a | a in st.log :: !Accepts(a))
    && var p := After(l, m);
    && |st.log| == p.flushes + One(m == k && p.field == 13)
    && (if again then m == k + 1 && m > 1 && After(l, m - 1).field == 13 && Again(l, st, l[m - 2].seqNum, l[m - 1].seqNum)
        else if m == k && p.field == 13 then Emptied(st, l[m - 1].seqNum)
        else Collecting(l, st, p, l[m - 1].seqNum))
  }

  lemma FirstVisit(l: StaleQ, st: StaleScan)
    requires l != [] && Sorted(l) && 0 <= l[0].seqNum
    requires st.staleQ == l && st.log == [] && st.fieldIdx == 0 && !st.inProgress
    ensures VisitHead(st, 0).Next? && Visiting(l, VisitHead(st, 0).st, 1, 0, 1, false)
  {
    hide Expand, Distinct;
    var s := l[0].seqNum;
    var r := VisitHead(st, 0).st;
    assert Wrap32(s - s) == 0 && Wrap32(0 + 1) == 1;
    assert r.fields[..1] == [SackField(0, 1)];
    assert l[0..] == l;
    OneField(s, SackField(0, 1));
    OneDistinct(l);
    assert Range(s, 1) == [s];
  }

  lemma OneDistinct(l: StaleQ)
    requires l != []
    ensures Distinct(l, 1) == [l[0].seqNum]
  {
    assert Distinct(l, 0) == [];
  }

  lemma OneField(base: int, f: SackField)
    ensures Expand(base, [f]) == Range(base + f.offset, f.count)
  {
    ExpandSnoc(base, [], f);
    assert [] + [f] == [f];
    assert Expand(base, []) == [];
  }

  // The next entry has the number dealt with last: it goes.
  lemma DropCopy(l: StaleQ, st: StaleScan, i: nat, k: nat)
    requires Sorted(l) && i > 0 && Visiting(l, st, i, k, k, false) && k < |l| && l[k].seqNum == l[k - 1].seqNum
    requires st.fieldIdx < MAX_SACKS
    ensures VisitHead(st, i).Next? && Visiting(l, VisitHead(st, i).st, i + 1, k + 1, k + 1, false)
  {
    hide Below, Expand, Spread, Visit;
    DistinctLast(l, k);
    assert Distinct(l, k + 1) == Distinct(l, k);
    SameAfter(l, k);
    assert l[k..][1..] == l[k + 1..] && l[k..][0] == l[k];
  }

  lemma SameAfter(l: StaleQ, m: nat)
    requires 0 < m < |l| && l[m].seqNum == l[m - 1].seqNum
    ensures After(l, m + 1) == After(l, m)
  {
  }

  // The entry of the number dealt with last goes.
  lemma DropHead(l: StaleQ, st: StaleScan, i: nat, k: nat)
    requires Sorted(l) && i > 0 && Visiting(l, st, i, k, k + 1, false) && st.fieldIdx < MAX_SACKS
    ensures VisitHead(st, i).Next? && Visiting(l, VisitHead(st, i).st, i + 1, k + 1, k + 1, false)
  {
    hide Below, Expand, Spread, Distinct, After;
    assert l[k..][1..] == l[k + 1..] && l[k..][0] == l[k];
  }

  // A number right behind the field in progress.
  lemma NextInField(l: StaleQ, st: StaleScan, p: Progress, a: int, b: int)
    requires Sorted(l) && Collecting(l, st, p, a) && p.field <= 12 && b == a + 1 && b <= Last(l).seqNum
    ensures Collecting(l, AckHead(st, b), Visit(p, a, b), b)
  {
    hide Expand;
    var r := AckHead(st, b);
    var f, fs := st.fields[st.fieldIdx], st.fields[..st.fieldIdx];
    assert st.fields[..st.fieldIdx + 1] == fs + [f];
    assert r.fields[..r.fieldIdx + 1] == fs + [f.(count := Wrap32(f.count + 1))];
    assert st.fields[..st.fieldIdx + 1][st.fieldIdx] == f;
    if Spread(l) { GrowField(st.base, fs, f); }
  }

  // A number behind a gap.
  lemma NextField(l: StaleQ, st: StaleScan, p: Progress, a: int, b: int)
    requires Sorted(l) && Collecting(l, st, p, a) && p.field <= 12 && b > a + 1 && b <= Last(l).seqNum
    ensures Collecting(l, AckHead(st, b), Visit(p, a, b), b)
  {
    hide Expand;
    var r := AckHead(st, b);
    var fs, f := st.fields[..st.fieldIdx + 1], SackField(Wrap32(b - st.base), 1);
    assert Wrap32(0 + 1) == 1;
    assert r.fields[..r.fieldIdx + 1] == fs + [f];
    assert st.base + fs[0].offset + fs[0].count <= b;
    if Spread(l) {
      ExpandSnoc(st.base, fs, f);
      assert st.base + f.offset == b && Range(b, 1) == [b];
    }
  }

  // The first number after a full buffer.
  lemma FirstInBuffer(l: StaleQ, st: StaleScan, p: Progress, a: int, b: int)
    requires l != [] && Sorted(l) && Emptied(st, a) && p.field == 13 && b > a && b > l[0].seqNum && b >= 0
    ensures if b == a + 1 then Collecting(l, AckHead(st, b), Visit(p, a, b), b) else Again(l, AckHead(st, b), a, b)
  {
    hide Expand;
    var r := AckHead(st, b);
    assert Wrap32(b - b) == 0 && Wrap32(0 + 1) == 1;
    assert r.fields[..1] == [SackField(0, 1)];
    OneField(b, SackField(0, 1));
    assert Range(b, 1) == [b];
  }

  // ... and once more, if it was not the number expected.
  lemma SecondInBuffer(l: StaleQ, st: StaleScan, p: Progress, a: int, b: int)
    requires Sorted(l) && Again(l, st, a, b) && p.field == 13
    ensures Collecting(l, AckHead(st, b), Visit(p, a, b), b)
  {
    hide Expand;
    var r := AckHead(st, b);
    assert Wrap32(b - b) == 0 && Wrap32(0 + 1) == 1 && Wrap32(1 + 1) == 2;
    if b == a + 2 {
      assert r.fields[..1] == [SackField(0, 2)];
      OneField(b, SackField(0, 2));
      assert Range(b, 2) == [b, b + 1];
    } else {
      assert r.fields[..2] == [SackField(0, 1)] + [SackField(0, 1)];
      OneField(b, SackField(0, 1));
      ExpandSnoc(b, [SackField(0, 1)], SackField(0, 1));
      assert Range(b, 1) == [b];
      assert [b] + [b] == [b, b];
    }
  }

  lemma NewDistinct(l: StaleQ, k: nat)
    requires 0 < k < |l| && l[k].seqNum > l[k - 1].seqNum
    ensures |Distinct(l, k + 1)| == |Distinct(l, k)| + 1
  {
    DistinctLast(l, k);
  }

  // A number not dealt with before.
  lemma NewHead(l: StaleQ, st: StaleScan, i: nat, k: nat) returns (again: bool)
    requires Sorted(l) && i > 0 && Visiting(l, st, i, k, k, false) && k < |l| && l[k].seqNum > l[k - 1].seqNum
    requires st.fieldIdx < MAX_SACKS && l[0].seqNum >= 0
    ensures VisitHead(st, i).Next? && Visiting(l, VisitHead(st, i).st, i + 1, k, k + 1, again)
  {
    hide Below, Expand, Spread, Distinct, AckHead, Collecting, Emptied, Again;
    var p, a, b := After(l, k), l[k - 1].seqNum, l[k].seqNum;
    again := p.field == 13 && b >= a + 2;
    AfterBounds(l, k);
    NewDistinct(l, k);
    assert l[k..][0] == l[k] && Last(l) == l[|l| - 1];
    HeadIs(l, st, i, k);
    KeepsHead(st, b);
    if p.field == 13 {
      FirstInBuffer(l, st, p, a, b);
    } else if b == a + 1 {
      NextInField(l, st, p, a, b);
    } else {
      NextField(l, st, p, a, b);
    }
  }

  // What acknowledging the head leaves alone.
  lemma KeepsHead(st: StaleScan, b: int)
    requires st.fieldIdx < MAX_SACKS
    ensures var r := AckHead(st, b); r.staleQ == st.staleQ && r.log == st.log
  {
  }

  lemma HeadIs(l: StaleQ, st: StaleScan, i: nat, k: nat)
    requires Visiting(l, st, i, k, k, false)
    ensures 0 < k <= |l| && st.expected == l[k - 1].seqNum + 1
  {
    hide Below, Expand, Spread, Distinct, AckHead, After;
  }

  // The first number after a full buffer, looked at again.
  lemma HeadAgain(l: StaleQ, st: StaleScan, i: nat, k: nat)
    requires Sorted(l) && i > 0 && Visiting(l, st, i, k, k + 1, true) && st.fieldIdx < MAX_SACKS
    ensures VisitHead(st, i).Next? && Visiting(l, VisitHead(st, i).st, i + 1, k, k + 1, false)
  {
    hide Below, Expand, Spread, Distinct, AckHead, Collecting;
    assert l[k..][0] == l[k];
    SecondInBuffer(l, st, After(l, k), l[k - 1].seqNum, l[k].seqNum);
    KeepsHead(st, l[k].seqNum);
  }

  // The full buffer goes out, and with it the entry whose field was the thirteenth.
  lemma FullBuffer(l: StaleQ, st: StaleScan, i: nat, k: nat, m: nat, again: bool)
    requires Sorted(l) && i > 0 && Visiting(l, st, i, k, m, again) && st.fieldIdx >= MAX_SACKS && st.txQ.Inv()
    ensures m == k + 1 && !again && st.fieldIdx == MAX_SACKS && k < |l| && After(l, m).field == 13
    ensures var f := StaleFlush(st, 0, MAX_SACKS);
            && f.st.fieldIdx <= MAX_SACKS
            && (f.Next? ==> f.st.fieldIdx < MAX_SACKS && VisitHead(f.st, i).Next?
                            && Visiting(l, VisitHead(f.st, i).st, i + 1, k + 1, m, false))
  {
    hide Below, Expand, Spread, Distinct, PushSack, Window.Inv;
    AfterBounds(l, m);
    hide After;
    assert l[k..][1..] == l[k + 1..] && l[k..][0] == l[k];
  }

  // The SACK of a full buffer names nothing but numbers dealt with.
  lemma FullBelow(l: StaleQ, st: StaleScan, i: nat, k: nat, m: nat, again: bool, hi: int)
    requires Sorted(l) && Visiting(l, st, i, k, m, again) && st.fieldIdx == MAX_SACKS
    requires forall j | 0 <= j < |l| :: l[j].seqNum < hi
    ensures SackBelow(Sack(st.base, 0, st.fields[..MAX_SACKS]), hi)
  {
    hide Expand, Spread, Distinct;
    AfterBounds(l, m);
    hide After;
    assert forall j | 0 <= j < 12 :: st.fields[..12][j] == st.fields[..13][j];
    BelowExpand(st.base, st.fields[..MAX_SACKS], hi);
  }

  // One iteration.
  lemma AnyVisit(l: StaleQ, st: StaleScan, i: nat, k: nat, m: nat, again: bool) returns (k': nat, m': nat, again': bool)
    requires Sorted(l) && i > 0 && Visiting(l, st, i, k, m, again) && k < |l| && l[0].seqNum >= 0 && st.fieldIdx < MAX_SACKS
    ensures VisitHead(st, i).Next? && Visiting(l, VisitHead(st, i).st, i + 1, k', m', again') && m <= m' <= m + 1 && 0 < m' <= |l|
    ensures 0 < m <= |l| && (m' == m + 1 ==> k' == m || l[m].seqNum == l[m - 1].seqNum)
  {
    hide *;
    StartOf(l, st, i, k, m, again);
    if m == k { NotLess(l, k); }
    if again {
      HeadAgain(l, st, i, k);
      k', m', again' := k, m, false;
    } else if m == k + 1 {
      DropHead(l, st, i, k);
      k', m', again' := k + 1, k + 1, false;
    } else if l[k].seqNum == l[k - 1].seqNum {
      DropCopy(l, st, i, k);
      k', m', again' := k + 1, k + 1, false;
    } else {
      again' := NewHead(l, st, i, k);
      k', m' := k, k + 1;
    }
    StartOf(l, VisitHead(st, i).st, i + 1, k', m', again');
  }

  lemma NotLess(l: StaleQ, k: nat)
    requires Sorted(l) && 0 < k < |l|
    ensures l[k - 1].seqNum <= l[k].seqNum
  {
  }

  lemma StartOf(l: StaleQ, st: StaleScan, i: nat, k: nat, m: nat, again: bool)
    requires Visiting(l, st, i, k, m, again)
    ensures k <= m <= k + 1 && 0 < m <= |l| && (again ==> m == k + 1)
    ensures st.staleQ == l[k..] && (forall a | a in st.log :: !Accepts(a))
  {
    hide Distinct, After;
  }

  // ---- The loop ----

  // What the loop keeps, besides its place in the list.
  ghost predicate Looping(l: StaleQ, tx: PacketQ, st: StaleScan, hi: int) {
    && tx.Inv() && st.txQ.Inv() && st.fieldIdx <= MAX_SACKS
    && TxGrew(tx, st.txQ, st.log) && LogBelow(st.log, hi)
    && Room(st.txQ) + |st.log| == Room(tx)
  }

  // Some number dealt with so far was given a thirteenth field.
  predicate Written(l: StaleQ, m: nat)
    requires 0 < m <= |l|
  {
    After(l, m).flushes > 0 || After(l, m).field == 13
  }

  // The memory behind the twelve fields: as it was, or overwritten with a field that counts one.
  ghost predicate Memory(l: StaleQ, m: nat, st: StaleScan, behind: SackField)
    requires 0 < m <= |l|
  {
    if Written(l, m) then st.fields[MAX_SACKS].count == 1 else st.fields[MAX_SACKS] == behind
  }

  // Dealing with the head of the list writes the thirteenth field exactly when it opens it.
  lemma VisitWrites(st: StaleScan, i: nat)
    requires st.fieldIdx < MAX_SACKS
    ensures var r := VisitHead(st, i).st;
            if r.fieldIdx < MAX_SACKS then r.fields[MAX_SACKS] == st.fields[MAX_SACKS]
            else r.fields[MAX_SACKS].count == 1
  {
    assert Wrap32(0 + 1) == 1;
  }

  lemma FieldOf(l: StaleQ, st: StaleScan, i: nat, k: nat, m: nat, again: bool)
    requires Visiting(l, st, i, k, m, again) && Sorted(l)
    ensures 0 < m <= |l|
    ensures st.fieldIdx == MAX_SACKS <==> m == k + 1 && After(l, m).field == 13
    ensures st.fieldIdx <= MAX_SACKS
  {
    AfterBounds(l, m);
    hide Distinct, Below, Expand;
  }

  // One more number: whether the thirteenth field has been written so far.
  lemma WrittenStep(l: StaleQ, m: nat, m': nat)
    requires Sorted(l) && 0 < m <= m' <= m + 1 && m' <= |l|
    ensures Written(l, m) ==> Written(l, m')
    ensures Written(l, m') && !Written(l, m) ==> After(l, m').field == 13 && m' == m + 1 && l[m - 1].seqNum < l[m].seqNum
  {
  }

  lemma IterationWrites(l: StaleQ, st: StaleScan, v: StaleScan, i: nat, k: nat, m: nat, again: bool,
                        k': nat, m': nat, again': bool, behind: SackField)
    requires Sorted(l) && Visiting(l, st, i, k, m, again) && Visiting(l, v, i + 1, k', m', again')
    requires 0 < m <= |l| && 0 < m' <= |l| && Memory(l, m, st, behind) && m <= m' <= m + 1
    requires m' == m + 1 ==> k' == m || l[m].seqNum == l[m - 1].seqNum
    requires if v.fieldIdx < MAX_SACKS then v.fields[MAX_SACKS] == st.fields[MAX_SACKS] else v.fields[MAX_SACKS].count == 1
    ensures Memory(l, m', v, behind)
  {
    hide Visiting, After, Sorted;
    FieldOf(l, v, i + 1, k', m', again');
    WrittenStep(l, m, m');
    StartOf(l, v, i + 1, k', m', again');
  }

  lemma VisitKeeps(st: StaleScan, i: nat)
    requires st.fieldIdx < MAX_SACKS
    ensures VisitHead(st, i).st.log == st.log && VisitHead(st, i).st.txQ == st.txQ
  {
  }

  lemma FlushKeeps(l: StaleQ, tx: PacketQ, st: StaleScan, hi: int, sackCount: nat, n: nat)
    requires Looping(l, tx, st, hi) && n <= MAX_SACKS + 1 && SackBelow(Sack(st.base, sackCount, st.fields[..n]), hi)
    ensures st.txQ.Inv() && tx.Inv()
    ensures var f := StaleFlush(st, sackCount, n);
            && Looping(l, tx, f.st, hi)
            && (if f.Next? then f.st.log == st.log + [Sack(st.base, sackCount, st.fields[..n])]
                else f.Return? && f.err == TryAgain && f.st == st && Room(tx) == |st.log|)
  {
    hide PushSack, SackBelow, TxGrew, Window.Inv, Room;
    PushFacts(tx, st.txQ, st.log, Sack(st.base, sackCount, st.fields[..n]));
    PushRoom(st.txQ, Sack(st.base, sackCount, st.fields[..n]));
  }

  lemma OneIteration(l: StaleQ, tx: PacketQ, st: StaleScan, i: nat, k: nat, m: nat, again: bool, hi: int, behind: SackField)
    returns (k': nat, m': nat, again': bool)
    requires Sorted(l) && i > 0 && Visiting(l, st, i, k, m, again) && k < |l| && l[0].seqNum >= 0
    requires Looping(l, tx, st, hi) && forall j | 0 <= j < |l| :: l[j].seqNum < hi
    requires 0 < m <= |l| && Memory(l, m, st, behind)
    ensures tx.Inv() && st.txQ.Inv() && st.fieldIdx <= MAX_SACKS
    ensures var s := StaleAt(st, i);
            && Looping(l, tx, s.st, hi)
            && (if s.Next? then Visiting(l, s.st, i + 1, k', m', again')
                else s.Return? && s.err == TryAgain && s.st == st && k' == k && m' == m && again' == again
                     && m == k + 1 && !again && After(l, m).field == 13 && Room(tx) == |st.log|)
            && 0 < m' <= |l| && Memory(l, m', s.st, behind)
  {
    hide *;
    LoopingIs(l, tx, st, hi);
    StaleAtIs(st, i);
    if st.fieldIdx >= MAX_SACKS {
      FullBuffer(l, st, i, k, m, again);
      FullBelow(l, st, i, k, m, again, hi);
      FlushKeeps(l, tx, st, hi, 0, MAX_SACKS);
      var f := StaleFlush(st, 0, MAX_SACKS);
      if f.Next? {
        VisitKeeps(f.st, i);
        LoopingStays(l, tx, f.st, VisitHead(f.st, i).st, hi);
        k', m', again' := k + 1, m, false;
        VisitWrites(f.st, i);
        FlushMemory(st);
        IterationWrites(l, st, VisitHead(f.st, i).st, i, k, m, again, k', m', again', behind);
      } else {
        k', m', again' := k, m, again;
      }
    } else {
      VisitKeeps(st, i);
      LoopingStays(l, tx, st, VisitHead(st, i).st, hi);
      k', m', again' := AnyVisit(l, st, i, k, m, again);
      VisitWrites(st, i);
      IterationWrites(l, st, VisitHead(st, i).st, i, k, m, again, k', m', again', behind);
    }
  }

  lemma FlushMemory(st: StaleScan)
    requires st.txQ.Inv()
    ensures StaleFlush(st, 0, MAX_SACKS).st.fields[MAX_SACKS] == st.fields[MAX_SACKS]
  {
    hide PushSack;
  }

  lemma LoopingIs(l: StaleQ, tx: PacketQ, st: StaleScan, hi: int)
    requires Looping(l, tx, st, hi)
    ensures tx.Inv() && st.txQ.Inv() && st.fieldIdx <= MAX_SACKS <= MAX_SACKS + 1
  {
  }

  lemma LoopingStays(l: StaleQ, tx: PacketQ, st: StaleScan, v: StaleScan, hi: int)
    requires Looping(l, tx, st, hi) && v.log == st.log && v.txQ == st.txQ && v.fieldIdx <= MAX_SACKS
    ensures Looping(l, tx, v, hi)
  {
  }

  lemma StaleAtIs(st: StaleScan, i: nat)
    requires st.txQ.Inv() && st.fieldIdx <= MAX_SACKS
    ensures StaleAt(st, i) ==
            if st.fieldIdx < MAX_SACKS then VisitHead(st, i)
            else var f := StaleFlush(st, 0, MAX_SACKS); if f.Next? then VisitHead(f.st, i) else f
  {
    hide VisitHead, PushSack;
  }

  lemma {:induction false} StaleLoopFacts(l: StaleQ, tx: PacketQ, st: StaleScan, i: nat, k: nat, m: nat, again: bool,
                                       maxSlots: nat, hi: int, behind: SackField)
    returns (i': nat, k': nat, m': nat, again': bool)
    requires Sorted(l) && 0 < i <= maxSlots && Visiting(l, st, i, k, m, again) && |l| > 0 && l[0].seqNum >= 0
    requires Looping(l, tx, st, hi) && forall j | 0 <= j < |l| :: l[j].seqNum < hi
    requires 0 < m <= |l| && Memory(l, m, st, behind)
    ensures tx.Inv() && st.txQ.Inv() && st.fieldIdx <= MAX_SACKS
    ensures var r := StaleLoop(st, i, maxSlots);
            && Looping(l, tx, r.st, hi) && Visiting(l, r.st, i', k', m', again') && i' <= maxSlots
            && (if r.Break? then i' == maxSlots || k' == |l|
                else r.Return? && r.err == TryAgain && i' < maxSlots && m' == k' + 1 && !again'
                     && 0 < m' <= |l| && After(l, m').field == 13 && Room(tx) == |r.st.log|)
            && 0 < m' <= |l| && Memory(l, m', r.st, behind)
    decreases maxSlots - i
  {
    hide StaleAt, Visiting, Looping, Room, After, Memory;
    LoopingIs(l, tx, st, hi);
    StartOf(l, st, i, k, m, again);
    i', k', m', again' := i, k, m, again;
    if i < maxSlots {
      if k < |l| {
        k', m', again' := OneIteration(l, tx, st, i, k, m, again, hi, behind);
        var s := StaleAt(st, i);
        if s.Next? {
          i', k', m', again' := StaleLoopFacts(l, tx, s.st, i + 1, k', m', again', maxSlots, hi, behind);
        }
      } else {
        ListUsed(l, st, i, k, m, again);
      }
    }
  }

  lemma ListUsed(l: StaleQ, st: StaleScan, i: nat, k: nat, m: nat, again: bool)
    requires Visiting(l, st, i, k, m, again) && k == |l| && st.txQ.Inv() && st.fieldIdx <= MAX_SACKS && Sorted(l)
    ensures StaleAt(st, i) == Break(st)
  {
    AfterBounds(l, m);
    hide After, Distinct, Below, Expand, Spread;
  }
}
