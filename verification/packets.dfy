/** A captured packet, reduced to the fields the merger and the flow feature
    extractor read. Parsing link, network and transport headers is left to
    the capture library and is not modelled. */
module Packets {

  /** TCP flag bits as the capture library exposes them. */
  type TcpFlags = bv16

  const SYN: TcpFlags := 0x02
  const ACK: TcpFlags := 0x10
  const SYN_ACK: TcpFlags := 0x12

  /** One capture record. `hasIp` says whether an IPv4 layer is present,
      `hasTcp` whether a TCP layer is present (possibly over another network
      layer), `hasRaw` whether a raw application payload layer is present.
      The address, port, flag, sequence and payload fields are meaningful
      only when the corresponding layer is present. */
  datatype Packet = Packet(
    time: real,
    hasIp: bool,
    hasTcp: bool,
    hasRaw: bool,
    src: string,
    dst: string,
    sport: nat,
    dport: nat,
    flags: TcpFlags,
    seqNum: nat,
    payloadLen: nat)

  /** The capture timestamp, the merger's sort key. */
  function Time(p: Packet): real {
    p.time
  }

  predicate HasSyn(p: Packet) {
    p.flags & SYN != 0
  }

  predicate HasAck(p: Packet) {
    p.flags & ACK != 0
  }

  /** Both SYN and ACK are set. */
  predicate IsSynAck(p: Packet) {
    p.flags & SYN_ACK == SYN_ACK
  }

  /** The packet carries both an IPv4 and a TCP layer. */
  predicate IsIpTcp(p: Packet) {
    p.hasIp && p.hasTcp
  }

  /** The packet carries a TCP layer with the SYN bit set. */
  predicate IsTcpSyn(p: Packet) {
    p.hasTcp && HasSyn(p)
  }

  /** The key under which a segment counts as seen before:
      source address, source port, sequence number and payload length. */
  datatype SegmentKey = SegmentKey(src: string, sport: nat, seqNum: nat, payloadLen: nat)

  function KeyOf(p: Packet): SegmentKey {
    SegmentKey(p.src, p.sport, p.seqNum, p.payloadLen)
  }

  /** The SYN-ACK mask test is the conjunction of the two single-bit tests. */
  lemma SynAckIsSynAndAck(p: Packet)
    ensures IsSynAck(p) <==> HasSyn(p) && HasAck(p)
  {
  }
}
