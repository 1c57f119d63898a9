/** The demonstration conversation: a five-packet TCP exchange captured at
    two hops, the second hop seeing every packet 4 ms later. Merging the two
    captures interleaves them, and the retransmission heuristic counts the
    second sighting of every ACK-carrying segment. */
module Demo {
  import opened Common
  import opened Packets
  import opened Features
  import opened Rules
  import opened Sorting
  import opened Stitch
  import opened Pipeline

  const CLIENT := "10.0.0.10"
  const SERVER := "10.0.2.40"
  const CLIENT_PORT := 51822
  const SERVER_PORT := 443
  /** The request payload length, in bytes. */
  const REQUEST_LEN := 22

  function Segment(t: real, fromClient: bool, flags: TcpFlags, seqNum: nat, len: nat): Packet {
    Packet(t, true, true, len > 0,
           if fromClient then CLIENT else SERVER,
           if fromClient then SERVER else CLIENT,
           if fromClient then CLIENT_PORT else SERVER_PORT,
           if fromClient then SERVER_PORT else CLIENT_PORT,
           flags, seqNum, len)
  }

  /** The conversation as seen at a hop, `d` seconds after the first hop. */
  function Conversation(base: real, d: real): seq<Packet> {
    [ Segment(base + 0.000 + d, true, 0x02, 1000, 0),           // SYN
      Segment(base + 0.050 + d, false, 0x12, 5000, 0),          // SYN-ACK
      Segment(base + 0.060 + d, true, 0x10, 1001, 0),           // ACK
      Segment(base + 0.090 + d, true, 0x18, 1001, REQUEST_LEN), // PSH-ACK with the request
      Segment(base + 0.140 + d, false, 0x10, 5001, 0) ]         // ACK of the request
  }

  /** The two captures merged: each packet of the first hop directly
      followed by its second-hop copy. */
  function MergedDemo(base: real): seq<Packet> {
    var h1, h2 := Conversation(base, 0.0), Conversation(base, 0.004);
    [h1[0], h2[0], h1[1], h2[1], h1[2], h2[2], h1[3], h2[3], h1[4], h2[4]]
  }

  /** Each hop's capture is in time order. */
  lemma DemoHopsOrdered(base: real)
    ensures SortedBy(Conversation(base, 0.0), Time) && SortedBy(Conversation(base, 0.004), Time)
  {
  }

  /** The two-way merge of the hop captures alternates between them: every
      hop-1 packet is exactly 4 ms ahead of its hop-2 copy, and that copy is
      earlier than the next hop-1 packet. */
  lemma DemoInterleave(base: real)
    ensures MergeBy(Conversation(base, 0.0), Conversation(base, 0.004), Time) == MergedDemo(base)
  {
    var h1, h2 := Conversation(base, 0.0), Conversation(base, 0.004);
    assert MergeBy(h1[..1], h2[..0], Time) == [h1[0]];
    assert h2[..1][..0] == h2[..0];
    assert MergeBy(h1[..1], h2[..1], Time) == MergeBy(h1[..1], h2[..0], Time) + [h2[0]];
    assert h1[..2][..1] == h1[..1];
    assert MergeBy(h1[..2], h2[..1], Time) == MergeBy(h1[..1], h2[..1], Time) + [h1[1]];
    assert h2[..2][..1] == h2[..1];
    assert MergeBy(h1[..2], h2[..2], Time) == MergeBy(h1[..2], h2[..1], Time) + [h2[1]];
    assert h1[..3][..2] == h1[..2];
    assert MergeBy(h1[..3], h2[..2], Time) == MergeBy(h1[..2], h2[..2], Time) + [h1[2]];
    assert h2[..3][..2] == h2[..2];
    assert MergeBy(h1[..3], h2[..3], Time) == MergeBy(h1[..3], h2[..2], Time) + [h2[2]];
    assert h1[..4][..3] == h1[..3];
    assert MergeBy(h1[..4], h2[..3], Time) == MergeBy(h1[..3], h2[..3], Time) + [h1[3]];
    assert h2[..4][..3] == h2[..3];
    assert MergeBy(h1[..4], h2[..4], Time) == MergeBy(h1[..4], h2[..3], Time) + [h2[3]];
    assert h1[..5][..4] == h1[..4];
    assert MergeBy(h1[..5], h2[..4], Time) == MergeBy(h1[..4], h2[..4], Time) + [h1[4]];
    assert h2[..5][..4] == h2[..4];
    assert MergeBy(h1[..5], h2[..5], Time) == MergeBy(h1[..5], h2[..4], Time) + [h2[4]];
    assert h1[..5] == h1 && h2[..5] == h2;
  }

  /** Merging the two hop captures interleaves them, each first-hop packet
      directly followed by its second-hop copy. */
  lemma DemoMerge(base: real)
    ensures MergedTrace([Conversation(base, 0.0), Conversation(base, 0.004)]) == MergedDemo(base)
  {
    DemoHopsOrdered(base);
    MergeTwoOrdered(Conversation(base, 0.0), Conversation(base, 0.004));
    DemoInterleave(base);
  }

  /** The SYN is the first packet and the first SYN-ACK the third. */
  lemma DemoHandshake(base: real)
    ensures FirstIndex(MergedDemo(base), IsTcpSyn, 10) == Some(0)
    ensures FirstIndex(MergedDemo(base), IsIpTcpSynAck, 10) == Some(2)
  {
    var s := MergedDemo(base);
    assert IsTcpSyn(s[0]);
    assert !IsIpTcpSynAck(s[0]) && !IsIpTcpSynAck(s[1]) && IsIpTcpSynAck(s[2]);
  }

  /** The second sightings of SYN-ACK, ACK, request and final ACK are
      counted; the second SYN is not, since it carries no ACK. */
  lemma DemoRetrans(base: real)
    ensures Retrans(MergedDemo(base), 10) == 4
  {
    var s := MergedDemo(base);
    var k1, k2, k3, k4, k5 := KeyOf(s[0]), KeyOf(s[2]), KeyOf(s[4]), KeyOf(s[6]), KeyOf(s[8]);
    assert SeenKeys(s, 1) == {k1};
    assert SeenKeys(s, 3) == {k1, k2};
    assert SeenKeys(s, 5) == {k1, k2, k3};
    assert SeenKeys(s, 7) == {k1, k2, k3, k4};
    assert SeenKeys(s, 9) == {k1, k2, k3, k4, k5};
    assert !CountedAt(s, 0) && !CountedAt(s, 1) && !CountedAt(s, 2) && CountedAt(s, 3);
    assert !CountedAt(s, 4) && CountedAt(s, 5) && !CountedAt(s, 6) && CountedAt(s, 7);
    assert !CountedAt(s, 8) && CountedAt(s, 9);
    assert Retrans(s, 1) == 0;
    assert Retrans(s, 2) == 0;
    assert Retrans(s, 4) == 1;
    assert Retrans(s, 6) == 2;
    assert Retrans(s, 8) == 3;
  }

  /** Six client packets carrying the request twice, four server packets
      with no payload. */
  lemma DemoDirections(base: real)
    ensures var s, ident := MergedDemo(base), Some(Endpoints(CLIENT, CLIENT_PORT, SERVER, SERVER_PORT));
      DirPkts(ident, s, 10, true) == 6 && DirPkts(ident, s, 10, false) == 4 &&
      DirBytes(ident, s, 10, true) == 2 * REQUEST_LEN && DirBytes(ident, s, 10, false) == 0 &&
      AppBytes(s, 10) == 2 * REQUEST_LEN
  {
    var s, ident := MergedDemo(base), Some(Endpoints(CLIENT, CLIENT_PORT, SERVER, SERVER_PORT));
    assert forall i :: 0 <= i < 10 ==> IsIpTcp(s[i]);
    assert IsForward(ident, s[0]) && IsForward(ident, s[1]) && !IsForward(ident, s[2]) && !IsForward(ident, s[3]);
    assert IsForward(ident, s[4]) && IsForward(ident, s[5]) && IsForward(ident, s[6]) && IsForward(ident, s[7]);
    assert !IsForward(ident, s[8]) && !IsForward(ident, s[9]);
    assert DirPkts(ident, s, 1, true) == 1 && DirPkts(ident, s, 1, false) == 0;
    assert DirPkts(ident, s, 2, true) == 2 && DirPkts(ident, s, 2, false) == 0;
    assert DirPkts(ident, s, 4, true) == 2 && DirPkts(ident, s, 4, false) == 2;
    assert DirPkts(ident, s, 6, true) == 4 && DirPkts(ident, s, 6, false) == 2;
    assert DirPkts(ident, s, 8, true) == 6 && DirPkts(ident, s, 8, false) == 2;
    assert DirBytes(ident, s, 1, true) == 0 && DirBytes(ident, s, 1, false) == 0;
    assert DirBytes(ident, s, 2, true) == 0 && DirBytes(ident, s, 2, false) == 0;
    assert DirBytes(ident, s, 4, true) == 0 && DirBytes(ident, s, 4, false) == 0;
    assert DirBytes(ident, s, 5, true) == 0 && DirBytes(ident, s, 5, false) == 0;
    assert DirBytes(ident, s, 6, true) == 0;
    assert DirBytes(ident, s, 6, false) == 0;
    assert DirBytes(ident, s, 7, true) == REQUEST_LEN;
    assert DirBytes(ident, s, 8, true) == 2 * REQUEST_LEN;
    assert DirBytes(ident, s, 8, false) == 0;
    assert AppBytes(s, 1) == 0;
    assert AppBytes(s, 2) == 0;
    assert AppBytes(s, 4) == 0;
    assert AppBytes(s, 6) == 0;
    assert AppBytes(s, 8) == 2 * REQUEST_LEN;
  }

  /** The features the demonstration trace yields. */
  function DemoVector(): FeatureVector {
    FeatureVector(
      pkts := 10, retransEstimate := 4, retransRate := 0.4,
      synRttEstimate := Some(0.050),
      identity := Some(Endpoints(CLIENT, CLIENT_PORT, SERVER, SERVER_PORT)),
      fwdPkts := 6, revPkts := 4, fwdBytes := 2 * REQUEST_LEN, revBytes := 0,
      appBytes := 2 * REQUEST_LEN)
  }

  /** On the merged demonstration trace four of ten packets count as
      retransmissions, a rate of 0.4, and the handshake takes 50 ms. */
  lemma DemoFeatures(base: real)
    requires base > 0.0
    ensures Extract(MergedDemo(base)) == Ok(DemoVector())
  {
    var s := MergedDemo(base);
    DemoHandshake(base);
    assert IdentityScan(s) == Ok(Some(SynInfo(Endpoints(CLIENT, CLIENT_PORT, SERVER, SERVER_PORT), base)));
    assert SynAckTime(Some(base), s, 10) == Some(base + 0.050);
    DemoRetrans(base);
    DemoDirections(base);
    assert Rate(4, 10) == 0.4;
  }

  /** Stitching the two hop captures and analysing the result diagnoses
      packet loss with confidence 0.75. */
  lemma DemoDiagnosis(base: real)
    requires base > 0.0
    ensures var d := Analyze(MergedTrace([Conversation(base, 0.0), Conversation(base, 0.004)]));
      d.Ok? && d.value.primaryCause == PacketLossOrMtuIssue && d.value.confidence == 0.75
  {
    DemoMerge(base);
    DemoFeatures(base);
    AnalyzeCases(MergedDemo(base), DemoVector());
  }
}
