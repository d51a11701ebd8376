/** Acknowledging the packets that arrived again after the user had taken them. */
module Stale {
  import opened Packets
  import opened Receiver

  // The local variables of generateStaleAcks.
  datatype StaleScan = StaleScan(
    staleQ: StaleQ, txQ: PacketQ,
    fieldIdx: nat, inProgress: bool, expected: int, unsent: nat, base: int, fields: FieldBuff,
    log: seq<Sack>)

  // How an iteration ends: on to the next, out of the loop, or out of the call.
  datatype StaleStep = Next(st: StaleScan) | Break(st: StaleScan) | Return(st: StaleScan, err: EtcpError)

  function StaleFlush(st: StaleScan, sackCount: nat, n: nat): StaleStep
    requires st.txQ.Inv() && n <= MAX_SACKS + 1
  {
    var sack := Sack(st.base, sackCount, st.fields[..n]);
    var (txQ, err) := PushSack(st.txQ, sack);
    if err != NoError then Return(st, err)
    else Next(StaleScan(st.staleQ, txQ, 0, false, st.expected, 0, 0, Cleared(st.fields[MAX_SACKS]), st.log + [sack]))
  }

  // Acknowledging the head of the list without removing it.
  function AckHead(st: StaleScan, s: int): (r: StaleScan)
    requires st.fieldIdx < MAX_SACKS
    ensures r.fieldIdx <= MAX_SACKS && r.txQ == st.txQ
  {
    var closed := if s > st.expected && st.inProgress
                  then st.(fieldIdx := st.fieldIdx + 1, inProgress := false, expected := s) else st;
    var started := if closed.inProgress then closed
                  else
                    var base := if closed.fieldIdx == 0 then s else closed.base;
                    closed.(base := base, inProgress := true,
                            fields := closed.fields[closed.fieldIdx := SackField(Wrap32(s - base), 0)]);
    var f := started.fields[started.fieldIdx];
    started.(unsent := started.unsent + 1, expected := started.expected + 1,
            fields := started.fields[started.fieldIdx := f.(count := Wrap32(f.count + 1))])
  }

  // The part of iteration i that looks at the head; an entry goes on its second visit.
  function VisitHead(st: StaleScan, i: nat): (r: StaleStep)
    requires st.fieldIdx < MAX_SACKS
    ensures r.st.fieldIdx <= MAX_SACKS && r.st.txQ == st.txQ
  {
    if st.staleQ == [] then Break(st)
    else
      var s := st.staleQ[0].seqNum;
      var st := if i == 0 then st.(expected := s) else st;
      if s < st.expected then
        if s == st.expected - 1 then Next(st.(staleQ := st.staleQ[1..])) else Return(st, Fatal)
      else Next(AckHead(st, s))
  }

  function StaleAt(st: StaleScan, i: nat): (r: StaleStep)
    requires st.txQ.Inv() && st.fieldIdx <= MAX_SACKS
    ensures r.st.txQ.Inv() && r.st.fieldIdx <= MAX_SACKS
  {
    if st.fieldIdx >= MAX_SACKS then
      var f := StaleFlush(st, 0, MAX_SACKS);
      if f.Next? then VisitHead(f.st, i) else f
    else VisitHead(st, i)
  }

  function StaleLoop(st: StaleScan, i: nat, maxSlots: nat): (r: StaleStep)
    requires st.txQ.Inv() && st.fieldIdx <= MAX_SACKS
    ensures r.st.txQ.Inv() && r.st.fieldIdx <= MAX_SACKS && !r.Next?
    decreases maxSlots - i
  {
    if i >= maxSlots then Break(st)
    else
      var s := StaleAt(st, i);
      if s.Next? then StaleLoop(s.st, i + 1, maxSlots) else s
  }

  function StaleStart(r: Receiver, behind: SackField): (st: StaleScan)
  {
    StaleScan(r.staleQ, r.txQ, 0, false, 0, 0, 0, Cleared(behind), [])
  }

  // What that memory holds after the loop.  The buffer has twelve fields; the model's thirteenth
  // stands for the memory that a thirteenth field would be written to.
  function BehindAfter(r: Receiver, maxAckPackets: int, maxSlots: nat, behind: SackField): SackField
    requires r.txQ.Inv()
  {
    if maxAckPackets <= 0 || r.staleQ == [] then behind
    else StaleLoop(StaleStart(r, behind), 0, maxSlots).st.fields[MAX_SACKS]
  }

  /** generateStaleAcks; behind is what memory holds just past its field buffer. */
  function GenerateStaleAcks(r: Receiver, maxAckPackets: int, maxSlots: nat, behind: SackField)
    : (Receiver, EtcpError, seq<Sack>)
    requires r.txQ.Inv()
  {
    if maxAckPackets <= 0 || r.staleQ == [] then (r, NoError, [])
    else
      var s := StaleLoop(StaleStart(r, behind), 0, maxSlots);
      if s.Return? then (r.(staleQ := s.st.staleQ, txQ := s.st.txQ), s.err, s.st.log)
      else if s.st.unsent == 0 then (r.(staleQ := s.st.staleQ, txQ := s.st.txQ), NoError, s.st.log)
      else
        var n := s.st.fieldIdx + 1;
        var e := StaleFlush(s.st, n, n);
        (r.(staleQ := e.st.staleQ, txQ := e.st.txQ), if e.Return? then e.err else NoError, e.st.log)
  }
}
