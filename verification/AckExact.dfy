/** The acknowledgements of one generateAcks call, expanded the way the sender expands them,
    against the packets the call was there to acknowledge. */
module AckExact {
  import opened RingWindow
  import opened Packets
  import opened Receiver
  import opened AckProofs

  // ---- Runs ----

  // How often, below hi, a packet that wants an acknowledgement is followed by one that does not.
  function ClosedRuns(w: PacketQ, hi: int): nat
    decreases hi - w.rdSeq
  {
    if hi <= w.rdSeq + 1 then 0
    else ClosedRuns(w, hi - 1) + if Wants(w, hi - 2) && !Wants(w, hi - 1) then 1 else 0
  }

  lemma {:induction false} ClosedMono(w: PacketQ, a: int, b: int)
    requires a <= b
    ensures ClosedRuns(w, a) <= ClosedRuns(w, b)
    decreases b - a
  {
    hide Wants;
    if a < b { ClosedMono(w, a, b - 1); }
  }

  // ---- What the 32 bits of an offset hold ----

  // A window of this size leaves room in 32 bits for the count of any field.  The queues of the
  // source have at most 2^30 slots.
  predicate Small(w: PacketQ) { w.Count() < TWO_TO_THE_32 }

  predicate Starts(w: PacketQ, t: int) { Wants(w, t) && !Wants(w, t - 1) }

  // The runs below h that go into the first field buffer start within reach of the acknowledged
  // edge.  Later buffers are measured from a place inside the window.
  predicate Reaches(w: PacketQ, seqAck: int, h: int) {
    forall t | w.rdSeq <= t < h && Starts(w, t) && ClosedRuns(w, t) < 12 :: t - seqAck < TWO_TO_THE_32
  }

  lemma ReachesStep(w: PacketQ, seqAck: int, i: int)
    requires w.rdSeq <= i
    ensures Reaches(w, seqAck, i + 1)
            <==> Reaches(w, seqAck, i) && (Starts(w, i) && ClosedRuns(w, i) < 12 ==> i - seqAck < TWO_TO_THE_32)
  {
    hide Starts, ClosedRuns;
  }

  predicate Congruent(x: int, y: int) { (x - y) % TWO_TO_THE_32 == 0 }

  lemma CongruentWrap(x: int, base: int)
    ensures Congruent(base + Wrap32(x - base), x)
    ensures x >= base ==> (base + Wrap32(x - base) == x <==> x - base < TWO_TO_THE_32)
  {
  }

  lemma CongruentNext(x: int, y: int)
    ensures Congruent(x + 1, y + 1) <==> Congruent(x, y)
  {
  }

  // Numbers less than 2^32 apart are not congruent.
  lemma CongruentNear(x: int, y: int)
    requires x < y < x + TWO_TO_THE_32
    ensures !Congruent(x, y)
  {
  }

  ghost predicate AllCongruent(a: seq<int>, b: seq<int>) {
    |a| == |b| && forall k | 0 <= k < |a| :: Congruent(a[k], b[k])
  }

  lemma CongruentSnoc(a: seq<int>, b: seq<int>, x: int, y: int)
    requires AllCongruent(a, b) && Congruent(x, y)
    ensures AllCongruent(a + [x], b + [y])
    ensures a + [x] == b + [y] <==> a == b && x == y
  {
    hide Congruent;
    if a + [x] == b + [y] {
      assert a == (a + [x])[..|a|] && b == (b + [y])[..|b|];
      assert x == (a + [x])[|a|] && y == (b + [y])[|b|];
    }
  }

  // ---- What a scan has collected ----

  function Collected(st: AckScan): seq<int>
    requires st.Ok()
  {
    Flatten(st.log) + Expand(st.base, st.fields[..st.Open()])
  }

  // The field in progress ends just before i, modulo 2^32 or, if the offsets reach, exactly.
  ghost predicate Growing(rx: PacketQ, st: AckScan, i: int, reaches: bool) {
    st.inProgress ==>
      && st.fieldIdx < MAX_SACKS
      && var f := st.fields[st.fieldIdx];
      && 0 < f.count <= i - rx.rdSeq
      && Congruent(st.base + f.offset + f.count, i)
      && (reaches ==> st.base + f.offset + f.count == i)
      && Wants(rx, i - 1)
  }

  /** What has been collected before iteration i is what was wanted, number by number, as far as
      32 bits can tell, and it is exactly that if and only if the offsets reach. */
  ghost predicate Exact(rx: PacketQ, seqAck: int, st: AckScan, i: int) {
    && st.Ok() && Small(rx)
    && Growing(rx, st, i, Reaches(rx, seqAck, i))
    && (forall k | 0 <= k < st.Open() :: st.fields[k].count > 0)
    && (forall a | a in st.log :: |Expand(a.base, a.fields)| > 0)
    && (if st.log == [] then st.seqAck == seqAck else Reaches(rx, seqAck, i) ==> st.seqAck >= rx.rdSeq)
    && AllCongruent(Collected(st), Wanted(rx, i))
    && (Collected(st) == Wanted(rx, i) <==> Reaches(rx, seqAck, i))
  }

  // Where the scan stands among the runs.
  ghost predicate Among(rx: PacketQ, st: AckScan, i: int) {
    && (st.inProgress <==> Wants(rx, i - 1))
    && (if st.log == [] then ClosedRuns(rx, i) == st.fieldIdx else ClosedRuns(rx, i) >= 12)
  }

  lemma WantedStep(rx: PacketQ, i: int)
    requires rx.rdSeq <= i
    ensures Wanted(rx, i + 1) == Wanted(rx, i) + if Wants(rx, i) then [i] else []
  {
  }

  lemma CloseExact(rx: PacketQ, seqAck: int, st: AckScan, i: int)
    requires rx.rdSeq <= i && Exact(rx, seqAck, st, i) && !Wants(rx, i)
    ensures Exact(rx, seqAck, st.Close(), i + 1)
    ensures !st.inProgress ==> Exact(rx, seqAck, st, i + 1)
  {
    WantedStep(rx, i);
    ReachesStep(rx, seqAck, i);
    assert !Starts(rx, i);
    hide Wants, Reaches, AllCongruent, Congruent, Flatten, Expand, Starts, Wanted;
    assert st.Close().fields[..st.Close().Open()] == st.fields[..st.Open()];
  }

  // An acknowledged packet never follows one that is not acknowledged.
  lemma PrefixStep(rx: PacketQ, i: int)
    requires RxWindow(rx) && rx.Has(i) && Wants(rx, i - 1)
    ensures !rx.At(i).buff.dat.ackSent
  {
  }

  // What counting packet i does to the scan.
  function Counted(st: AckScan, p: Packet): AckScan
    requires st.Ok() && st.fieldIdx < MAX_SACKS
  {
    var o := OpenField(st, p);
    var f := o.fields[st.fieldIdx];
    o.(unsent := st.unsent + 1, fields := o.fields[st.fieldIdx := f.(count := Wrap32(f.count + 1))])
  }

  lemma CountGrowing(rx: PacketQ, seqAck: int, st: AckScan, i: int)
    requires Exact(rx, seqAck, st, i) && Wants(rx, i) && i < rx.wrSeq && st.fieldIdx < MAX_SACKS && st.inProgress
    requires rx.InRange(i) && rx.rdSeq <= i && st.seqAck == st.base
    ensures Exact(rx, seqAck, Counted(st, rx.At(i).buff), i + 1)
  {
    hide Wanted, Expand, Flatten, Window.Inv, Reaches, Congruent, AllCongruent, ClosedRuns;
    var r := Counted(st, rx.At(i).buff);
    var f := st.fields[st.fieldIdx];
    var fs := st.fields[..st.fieldIdx];
    assert !Starts(rx, i);
    hide Wants, Starts;
    assert Wrap32(f.count + 1) == f.count + 1;
    assert st.fields[..st.Open()] == fs + [f];
    assert r.fields[..r.Open()] == fs + [f.(count := f.count + 1)];
    GrowField(st.base, fs, f);
    WantedStep(rx, i);
    ReachesStep(rx, seqAck, i);
    var x := st.base + f.offset + f.count;
    CongruentSnoc(Collected(st), Wanted(rx, i), x, i);
    CongruentNext(x, i);
    assert Collected(r) == Collected(st) + [x];
  }

  lemma ExpandBase(base: int, base': int, fs: seq<SackField>)
    requires fs != [] ==> base == base'
    ensures Expand(base, fs) == Expand(base', fs)
  {
  }

  // The first number of a field opened for packet i.
  lemma OpensAt(rx: PacketQ, seqAck: int, st: AckScan, i: int)
    requires Exact(rx, seqAck, st, i) && Wants(rx, i) && !st.inProgress && Among(rx, st, i) && st.fieldIdx < MAX_SACKS
    requires rx.InRange(i) && st.seqAck <= i
    ensures var x := st.seqAck + Wrap32(i - st.seqAck);
            && Congruent(x, i)
            && (Reaches(rx, seqAck, i + 1) <==> Reaches(rx, seqAck, i) && (st.log == [] ==> x == i))
            && (Reaches(rx, seqAck, i + 1) ==> x == i)
  {
    assert Starts(rx, i);
    hide Wanted, Expand, Flatten, Window.Inv, Reaches, Congruent, AllCongruent, ClosedRuns, Growing, Collected, Starts;
    ReachesStep(rx, seqAck, i);
    CongruentWrap(i, st.seqAck);
  }

  // What a field opened for packet p adds.
  lemma OpeningCollects(st: AckScan, p: Packet)
    requires st.Ok() && st.fieldIdx < MAX_SACKS && !st.inProgress && (st.fieldIdx > 0 ==> st.seqAck == st.base)
    ensures var r, o := Counted(st, p), Wrap32(p.dat.seqNum - st.seqAck);
            && r.Ok() && r.inProgress && r.fieldIdx == st.fieldIdx && r.base == r.seqAck == st.seqAck && r.log == st.log
            && (forall k | 0 <= k < st.fieldIdx :: r.fields[k] == st.fields[k])
            && r.fields[r.fieldIdx] == SackField(o, 1)
            && Collected(r) == Collected(st) + [st.seqAck + o]
  {
    hide Expand, Flatten, Window.Inv, Wrap32;
    var r := Counted(st, p);
    var f := SackField(Wrap32(p.dat.seqNum - st.seqAck), 0);
    var fs := st.fields[..st.fieldIdx];
    OneWrapped();
    assert r.fields[..r.Open()] == fs + [f.(count := 0 + 1)];
    ExpandBase(st.base, st.seqAck, fs);
    ExpandSnoc(st.seqAck, fs, f);
    NoRange(st.seqAck + f.offset);
    GrowField(st.seqAck, fs, f);
    assert st.seqAck + f.offset + f.count == st.seqAck + f.offset;
  }

  lemma CountOpening(rx: PacketQ, seqAck: int, st: AckScan, i: int)
    requires Exact(rx, seqAck, st, i) && Wants(rx, i) && i < rx.wrSeq && st.fieldIdx < MAX_SACKS && !st.inProgress
    requires rx.InRange(i) && rx.rdSeq <= i && st.seqAck <= i && rx.At(i).buff.dat.seqNum == i && Among(rx, st, i)
    requires st.fieldIdx > 0 ==> st.seqAck == st.base
    ensures Exact(rx, seqAck, Counted(st, rx.At(i).buff), i + 1)
  {
    OpensAt(rx, seqAck, st, i);
    hide Wanted, Flatten, Wants, Expand, Window.Inv, Reaches, Congruent, AllCongruent, Wrap32, Among, Counted, Collected;
    OpeningCollects(st, rx.At(i).buff);
    var x := st.seqAck + Wrap32(i - st.seqAck);
    WantedStep(rx, i);
    CongruentSnoc(Collected(st), Wanted(rx, i), x, i);
    CongruentNext(x, i);
  }

  lemma OneWrapped()
    ensures Wrap32(0 + 1) == 1
  {
  }

  lemma NoRange(start: int)
    ensures Range(start, 0) == []
  {
  }

  // The receive queue itself plays no part.
  lemma ExactSame(rx: PacketQ, seqAck: int, a: AckScan, b: AckScan, i: int)
    requires Exact(rx, seqAck, a, i) && b.Ok() && b == a.(rxQ := b.rxQ)
    ensures Exact(rx, seqAck, b, i)
  {
  }

  lemma SlotIs(rx: PacketQ, st: AckScan, i: int)
    requires rx.Inv() && Marked(rx, st.rxQ, i) && st.Ok() && st.fieldIdx < MAX_SACKS && rx.InRange(i)
    ensures var r := ScanSlot(st, i).st;
            r == (if Wants(rx, i) then Counted(st, rx.At(i).buff)
                  else if rx.Has(i) && rx.At(i).buff.dat.ackSent then st
                  else st.Close()).(rxQ := r.rxQ)
  {
    assert st.rxQ.InRange(i) && st.rxQ.At(i) == rx.At(i);
    hide Marked, OpenField;
  }

  lemma SkipExact(rx: PacketQ, seqAck: int, st: AckScan, i: int)
    requires RxWindow(rx) && rx.InRange(i) && Exact(rx, seqAck, st, i) && !Wants(rx, i)
    ensures Exact(rx, seqAck, if rx.Has(i) && rx.At(i).buff.dat.ackSent then st else st.Close(), i + 1)
  {
    if st.inProgress && rx.Has(i) {
      assert Wants(rx, i - 1);
      PrefixStep(rx, i);
    }
    CloseExact(rx, seqAck, st, i);
    hide Exact;
  }

  lemma ScanGives(rx: PacketQ, st: AckScan, i: int)
    requires RxWindow(rx) && Scanning(rx, st, i) && i <= rx.wrSeq
    ensures rx.Inv() && Marked(rx, st.rxQ, i) && st.Ok() && rx.rdSeq <= i
    ensures Wants(rx, i) ==> rx.Has(i) && i < rx.wrSeq && st.seqAck <= i && rx.At(i).buff.dat.seqNum == i
    ensures st.fieldIdx > 0 || st.inProgress ==> st.seqAck == st.base
  {
  }

  lemma CountExact(rx: PacketQ, seqAck: int, st: AckScan, i: int)
    requires RxWindow(rx) && Scanning(rx, st, i) && Exact(rx, seqAck, st, i)
    requires rx.InRange(i) && i <= rx.wrSeq && st.fieldIdx < MAX_SACKS && st.Ok() && Wants(rx, i) && Among(rx, st, i)
    ensures Exact(rx, seqAck, Counted(st, rx.At(i).buff), i + 1)
  {
    hide *;
    ScanGives(rx, st, i);
    if st.inProgress { CountGrowing(rx, seqAck, st, i); } else { CountOpening(rx, seqAck, st, i); }
  }

  lemma SlotExact(rx: PacketQ, seqAck: int, st: AckScan, i: int)
    requires RxWindow(rx) && Scanning(rx, st, i) && Exact(rx, seqAck, st, i)
    requires rx.InRange(i) && i <= rx.wrSeq && st.fieldIdx < MAX_SACKS && st.Ok() && Among(rx, st, i)
    ensures Exact(rx, seqAck, ScanSlot(st, i).st, i + 1)
  {
    hide *;
    ScanGives(rx, st, i);
    SlotIs(rx, st, i);
    var r := ScanSlot(st, i).st;
    if Wants(rx, i) {
      CountExact(rx, seqAck, st, i);
      ExactSame(rx, seqAck, Counted(st, rx.At(i).buff), r, i + 1);
    } else {
      SkipExact(rx, seqAck, st, i);
      ExactSame(rx, seqAck, if rx.Has(i) && rx.At(i).buff.dat.ackSent then st else st.Close(), r, i + 1);
    }
  }

  lemma {:induction false} ExpandSome(base: int, fs: seq<SackField>)
    requires fs != [] && forall k | 0 <= k < |fs| :: fs[k].count > 0
    ensures |Expand(base, fs)| > 0
  {
  }

  lemma {:induction false} ExpandFirst(base: int, fs: seq<SackField>)
    requires fs != [] && forall k | 0 <= k < |fs| :: fs[k].count > 0
    ensures |Expand(base, fs)| > 0 && Expand(base, fs)[0] == base + fs[0].offset
  {
    if |fs| > 1 {
      ExpandFirst(base, fs[..|fs| - 1]);
    } else {
      assert Expand(base, fs[..0]) == [];
      assert Expand(base, fs) == [] + Range(base + fs[0].offset, fs[0].count);
    }
  }

  lemma {:induction false} WantedFrom(w: PacketQ, h: int)
    ensures forall k | 0 <= k < |Wanted(w, h)| :: w.rdSeq <= Wanted(w, h)[k] < h
    decreases h - w.rdSeq
  {
    hide Wants;
    if h > w.rdSeq { WantedFrom(w, h - 1); }
  }

  lemma FlushExact(rx: PacketQ, seqAck: int, tx: PacketQ, st: AckScan, i: int)
    requires RxWindow(rx) && Scanning(rx, st, i) && Exact(rx, seqAck, st, i) && i <= rx.wrSeq && st.fieldIdx >= MAX_SACKS
    requires tx.Inv() && TxGrew(tx, st.txQ, st.log)
    ensures Exact(rx, seqAck, Flush(st, 0, MAX_SACKS).st, i)
  {
    hide PushSack, RxWindow, TxGrew, Wanted, Flatten, Marked, EdgeOk, LogBelow, Window.Inv, Reaches,
         AllCongruent, Congruent, Small, Expand, Wants;
    var fs := st.fields[..MAX_SACKS];
    FlattenSnoc(st.log, Sack(st.base, 0, fs));
    ExpandNone(Flush(st, 0, MAX_SACKS).st);
    ExpandSome(st.base, fs);
    ExpandFirst(st.base, fs);
    WantedFrom(rx, i);
    FlattenNone();
    assert st.fields[..st.Open()] == fs && fs[0] == st.fields[0];
    if st.log == [] && Reaches(rx, seqAck, i) {
      assert Wanted(rx, i) == [] + Expand(st.base, fs);
      assert Wanted(rx, i)[0] == st.base + st.fields[0].offset;
    }
    FlushCollects(st);
  }

  lemma ExpandNone(st: AckScan)
    requires st.Ok()
    ensures Expand(st.base, st.fields[..0]) == []
  {
  }

  lemma FlushCollects(st: AckScan)
    requires st.Ok() && st.fieldIdx >= MAX_SACKS
    ensures Flush(st, 0, MAX_SACKS).st.Ok() && Collected(Flush(st, 0, MAX_SACKS).st) == Collected(st)
  {
    hide PushSack, Flatten, Window.Inv;
    var f := Flush(st, 0, MAX_SACKS);
    FlattenSnoc(st.log, Sack(st.base, 0, st.fields[..MAX_SACKS]));
    assert f.st.log != st.log ==> f.st.fields[..f.st.Open()] == [] && Expand(f.st.base, []) == [];
    hide Expand;
  }

  // The fields of the last SACK expand to what has been collected.
  lemma LastExact(st: AckScan, hi: int)
    requires FieldsOk(st, hi) && st.unsent > 0 && st.Ok()
    requires st.fieldIdx == MAX_SACKS ==> st.fields[MAX_SACKS].count == 0
    ensures Flatten(st.log + [Sack(st.base, st.fieldIdx + 1, st.fields[..st.fieldIdx + 1])]) == Collected(st)
  {
    LastFields(st);
    FlattenSnoc(st.log, Sack(st.base, st.fieldIdx + 1, st.fields[..st.fieldIdx + 1]));
    ExpandSnoc(st.base, st.fields[..st.Open()], st.fields[st.fieldIdx]);
    hide Flatten, Expand;
  }
}
