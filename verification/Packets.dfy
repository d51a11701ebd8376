/** Packets as records.  The byte layout of the headers and the Ethernet framing around
    them are not modelled; the two header kinds of the union are kept side by side. */
module Packets {
  import opened Basics
  import opened RingWindow

  // (256 - 20 - 56 - 80) / 8: the 8-byte fields that fit a SACK packet behind its headers.
  const MAX_SACKS: nat := 12

  const TWO_TO_THE_16: nat := 0x1_0000
  const TWO_TO_THE_32: nat := 0x1_0000_0000

  datatype EtcpError = NoError | BadPkt | CqErr | RangeErr | TryAgain | Fatal

  // TxRdy: wait for transmission control.  TxNow: send.  TxDrp: give up.
  datatype TxState = TxRdy | TxNow | TxDrp

  // The type field of the header; a zeroed buffer holds no known type.
  datatype Kind = KindNone | KindDat | KindAck

  datatype DatHdr = DatHdr(
    seqNum: int, payload: Bytes, txAttempts: nat, noAck: bool, ackSent: bool, staleDat: bool)

  // offset and count are 32-bit.
  datatype SackField = SackField(offset: nat, count: nat)

  datatype Sack = Sack(base: int, sackCount: nat, fields: seq<SackField>)

  datatype Packet = Packet(txState: TxState, kind: Kind, dat: DatHdr, sack: Sack)

  const ZERO_PACKET := Packet(TxRdy, KindNone, DatHdr(0, [], 0, false, false, false), Sack(0, 0, []))

  type PacketQ = Window<Packet>

  function Take(data: Bytes, n: nat): Bytes { data[..Min(|data|, n)] }

  // The numbers start, start + 1, ..., start + count - 1.
  function Range(start: int, count: nat): (r: seq<int>)
    ensures |r| == count
  {
    seq(count, i => start + i)
  }

  // The sequence numbers that a receiver of these fields takes as acknowledged, in order.
  function Expand(base: int, fields: seq<SackField>): seq<int> {
    if fields == [] then []
    else Expand(base, fields[..|fields| - 1]) + Range(base + Last(fields).offset, Last(fields).count)
  }
}
