/** The flow feature extractor: a scan that finds the conversation identity
    from the first TCP packet with the SYN bit, then an aggregation scan over
    the IPv4/TCP packets that estimates retransmissions, counts packets and
    payload bytes per direction, application bytes, and the handshake time. */
module Features {
  import opened Common
  import opened Packets

  /** The conversation identity: the SYN packet's source is the client, its
      destination the server. */
  datatype Endpoints = Endpoints(clientIp: string, clientPort: nat, serverIp: string, serverPort: nat)

  /** What the identity scan finds: the endpoints and the SYN's time. */
  datatype SynInfo = SynInfo(ends: Endpoints, synTime: real)

  /** The identity scan reads the IPv4 layer of the first TCP SYN packet;
      when that packet has no IPv4 layer the lookup fails. */
  datatype ExtractError = IpLayerMissing(index: nat)

  datatype FeatureVector = FeatureVector(
    pkts: nat,
    retransEstimate: nat,
    retransRate: real,
    synRttEstimate: Option<real>,
    identity: Option<Endpoints>,
    fwdPkts: nat,
    revPkts: nat,
    fwdBytes: nat,
    revBytes: nat,
    appBytes: nat)

  // ---------------------------------------------------------------------
  // Specification: every quantity as a function of the trace.

  /** The index of the first of the first `n` packets of `s` satisfying
      `P`, if any. */
  function FirstIndex(s: seq<Packet>, P: Packet -> bool, n: nat): (r: Option<nat>)
    requires n <= |s|
    ensures r.Some? ==> r.value < n && P(s[r.value])
    ensures r.Some? ==> forall j :: 0 <= j < r.value ==> !P(s[j])
    ensures r.None? ==> forall j :: 0 <= j < n ==> !P(s[j])
  {
    if n == 0 then None
    else
      var r := FirstIndex(s, P, n - 1);
      if r.Some? then r
      else if P(s[n - 1]) then Some(n - 1)
      else None
  }

  /** An IPv4/TCP packet with both SYN and ACK set. */
  predicate IsIpTcpSynAck(p: Packet) {
    IsIpTcp(p) && IsSynAck(p)
  }

  /** The identity scan: the first TCP packet with SYN set (ACK may be set
      too) gives the endpoints and the SYN time. */
  function IdentityScan(s: seq<Packet>): Result<Option<SynInfo>, ExtractError> {
    match FirstIndex(s, IsTcpSyn, |s|)
    case None => Ok(None)
    case Some(i) =>
      var p := s[i];
      if !p.hasIp then Err(IpLayerMissing(i))
      else Ok(Some(SynInfo(Endpoints(p.src, p.sport, p.dst, p.dport), p.time)))
  }

  /** A packet is forward when its source matches the client; with no
      identity, or an empty client address, every packet is reverse. */
  predicate IsForward(ident: Option<Endpoints>, p: Packet) {
    ident.Some? && ident.value.clientIp != [] && p.src == ident.value.clientIp && p.sport == ident.value.clientPort
  }

  // Counters over the first `n` packets of a trace.

  /** The number of IPv4/TCP packets. */
  function IpTcpCount(s: seq<Packet>, n: nat): nat
    requires n <= |s|
  {
    if n == 0 then 0
    else IpTcpCount(s, n - 1) + (if IsIpTcp(s[n - 1]) then 1 else 0)
  }

  /** The total payload length of the IPv4/TCP packets. */
  function PayloadSum(s: seq<Packet>, n: nat): nat
    requires n <= |s|
  {
    if n == 0 then 0
    else PayloadSum(s, n - 1) + (if IsIpTcp(s[n - 1]) then s[n - 1].payloadLen else 0)
  }

  /** The number of IPv4/TCP packets classified in direction `fwd`. */
  function DirPkts(ident: Option<Endpoints>, s: seq<Packet>, n: nat, fwd: bool): nat
    requires n <= |s|
  {
    if n == 0 then 0
    else DirPkts(ident, s, n - 1, fwd) + (if IsIpTcp(s[n - 1]) && IsForward(ident, s[n - 1]) == fwd then 1 else 0)
  }

  /** The payload bytes of the IPv4/TCP packets classified in direction `fwd`. */
  function DirBytes(ident: Option<Endpoints>, s: seq<Packet>, n: nat, fwd: bool): nat
    requires n <= |s|
  {
    if n == 0 then 0
    else DirBytes(ident, s, n - 1, fwd) + (if IsIpTcp(s[n - 1]) && IsForward(ident, s[n - 1]) == fwd then s[n - 1].payloadLen else 0)
  }

  /** The segment keys of the IPv4/TCP packets. */
  function SeenKeys(s: seq<Packet>, n: nat): set<SegmentKey>
    requires n <= |s|
  {
    if n == 0 then {}
    else SeenKeys(s, n - 1) + (if IsIpTcp(s[n - 1]) then {KeyOf(s[n - 1])} else {})
  }

  /** Packet `i` is counted as a retransmission: an IPv4/TCP packet with ACK
      set whose key an earlier IPv4/TCP packet already had. */
  predicate CountedAt(s: seq<Packet>, i: nat)
    requires i < |s|
  {
    IsIpTcp(s[i]) && KeyOf(s[i]) in SeenKeys(s, i) && HasAck(s[i])
  }

  /** The retransmission estimate. */
  function Retrans(s: seq<Packet>, n: nat): nat
    requires n <= |s|
  {
    if n == 0 then 0
    else Retrans(s, n - 1) + (if CountedAt(s, n - 1) then 1 else 0)
  }

  /** Payload bytes of IPv4/TCP packets with a non-empty payload and a raw
      application layer. */
  function AppBytes(s: seq<Packet>, n: nat): nat
    requires n <= |s|
  {
    if n == 0 then 0
    else AppBytes(s, n - 1) + (if IsIpTcp(s[n - 1]) && s[n - 1].payloadLen > 0 && s[n - 1].hasRaw then s[n - 1].payloadLen else 0)
  }

  /** The SYN-ACK time: that of the first IPv4/TCP SYN-ACK packet anywhere in
      the trace, recorded only when a SYN was found. */
  function SynAckTime(synTime: Option<real>, s: seq<Packet>, n: nat): Option<real>
    requires n <= |s|
  {
    if synTime.None? then None
    else
      match FirstIndex(s, IsIpTcpSynAck, n)
      case None => None
      case Some(k) => Some(s[k].time)
  }

  /** The handshake round trip, defined only when both times are present and
      non-zero (a zero time reads as absent). */
  function HandshakeRtt(synTime: Option<real>, synackTime: Option<real>): Option<real> {
    if synTime.Some? && synTime.value != 0.0 && synackTime.Some? && synackTime.value != 0.0
    then Some(synackTime.value - synTime.value)
    else None
  }

  /** Retransmissions per packet, zero for an empty trace. */
  function Rate(retrans: nat, total: nat): real {
    if total > 0 then retrans as real / total as real else 0.0
  }

  /** The feature vector of a trace, or the failure of the identity scan. */
  function Extract(s: seq<Packet>): Result<FeatureVector, ExtractError> {
    match IdentityScan(s)
    case Err(e) => Err(e)
    case Ok(syn) =>
      var ident := if syn.Some? then Some(syn.value.ends) else None;
      var synTime := if syn.Some? then Some(syn.value.synTime) else None;
      var n := |s|;
      var retrans := Retrans(s, n);
      Ok(FeatureVector(
        pkts := n,
        retransEstimate := retrans,
        retransRate := Rate(retrans, n),
        synRttEstimate := HandshakeRtt(synTime, SynAckTime(synTime, s, n)),
        identity := ident,
        fwdPkts := DirPkts(ident, s, n, true),
        revPkts := DirPkts(ident, s, n, false),
        fwdBytes := DirBytes(ident, s, n, true),
        revBytes := DirBytes(ident, s, n, false),
        appBytes := AppBytes(s, n)))
  }

  /** The feature dictionary handed to the diagnosis engine and written out:
      thirteen keys, absent values as null. */
  function ToFeatureMap(fv: FeatureVector): (m: FeatureMap)
    ensures m.Keys == {"pkts", "retrans_estimate", "retrans_rate", "syn_rtt_estimate",
                       "client_ip", "server_ip", "client_port", "server_port",
                       "fwd_pkts", "rev_pkts", "fwd_bytes", "rev_bytes", "app_bytes"}
  {
    map[
      "pkts" := Num(fv.pkts as real),
      "retrans_estimate" := Num(fv.retransEstimate as real),
      "retrans_rate" := Num(fv.retransRate),
      "syn_rtt_estimate" := (if fv.synRttEstimate.Some? then Num(fv.synRttEstimate.value) else Null),
      "client_ip" := (if fv.identity.Some? then Str(fv.identity.value.clientIp) else Null),
      "server_ip" := (if fv.identity.Some? then Str(fv.identity.value.serverIp) else Null),
      "client_port" := (if fv.identity.Some? then Num(fv.identity.value.clientPort as real) else Null),
      "server_port" := (if fv.identity.Some? then Num(fv.identity.value.serverPort as real) else Null),
      "fwd_pkts" := Num(fv.fwdPkts as real),
      "rev_pkts" := Num(fv.revPkts as real),
      "fwd_bytes" := Num(fv.fwdBytes as real),
      "rev_bytes" := Num(fv.revBytes as real),
      "app_bytes" := Num(fv.appBytes as real)
    ]
  }

  // ---------------------------------------------------------------------
  // The extractor, scan by scan.

  /** The identity scan: stops at the first TCP packet with SYN set. */
  method FindConversation(pkts: seq<Packet>) returns (r: Result<Option<SynInfo>, ExtractError>)
    ensures r == IdentityScan(pkts)
  {
    var i := 0;
    while i < |pkts|
      invariant 0 <= i <= |pkts|
      invariant FirstIndex(pkts, IsTcpSyn, i) == None
    {
      var p := pkts[i];
      if p.hasTcp && p.flags & SYN != 0 {
        if !p.hasIp {
          return Err(IpLayerMissing(i));
        }
        return Ok(Some(SynInfo(Endpoints(p.src, p.sport, p.dst, p.dport), p.time)));
      }
      i := i + 1;
    }
    return Ok(None);
  }

  /** The aggregation scan over the IPv4/TCP packets: the retransmission
      estimate, the per-direction counters, the first SYN-ACK time and the
      application bytes. */
  method Aggregate(pkts: seq<Packet>, ident: Option<Endpoints>, synTime: Option<real>)
    returns (retrans: nat, fwdPkts: nat, revPkts: nat, fwdBytes: nat, revBytes: nat,
             bytesApp: nat, synackTime: Option<real>)
    ensures retrans == Retrans(pkts, |pkts|)
    ensures fwdPkts == DirPkts(ident, pkts, |pkts|, true) && revPkts == DirPkts(ident, pkts, |pkts|, false)
    ensures fwdBytes == DirBytes(ident, pkts, |pkts|, true) && revBytes == DirBytes(ident, pkts, |pkts|, false)
    ensures bytesApp == AppBytes(pkts, |pkts|)
    ensures synackTime == SynAckTime(synTime, pkts, |pkts|)
  {
    retrans, fwdPkts, revPkts, fwdBytes, revBytes, bytesApp := 0, 0, 0, 0, 0, 0;
    synackTime := None;
    var seen: set<SegmentKey> := {};
    var j := 0;
    while j < |pkts|
      invariant 0 <= j <= |pkts|
      invariant seen == SeenKeys(pkts, j)
      invariant retrans == Retrans(pkts, j)
      invariant fwdPkts == DirPkts(ident, pkts, j, true)
      invariant revPkts == DirPkts(ident, pkts, j, false)
      invariant fwdBytes == DirBytes(ident, pkts, j, true)
      invariant revBytes == DirBytes(ident, pkts, j, false)
      invariant synackTime == SynAckTime(synTime, pkts, j)
      invariant bytesApp == AppBytes(pkts, j)
    {
      var p := pkts[j];
      // Records without both an IPv4 and a TCP layer are skipped.
      if p.hasIp && p.hasTcp {
        var t := p.time;
        var key := SegmentKey(p.src, p.sport, p.seqNum, p.payloadLen);
        if key in seen && HasAck(p) {
          retrans := retrans + 1;
        } else {
          seen := seen + {key};
        }

        var forward := IsForward(ident, p);
        var plen := p.payloadLen;
        if forward {
          fwdPkts := fwdPkts + 1;
          fwdBytes := fwdBytes + plen;
        } else {
          revPkts := revPkts + 1;
          revBytes := revBytes + plen;
        }

        if IsSynAck(p) && synackTime.None? && synTime.Some? {
          synackTime := Some(t);
        }
        if plen > 0 && p.hasRaw {
          bytesApp := bytesApp + plen;
        }
      }
      j := j + 1;
    }
  }

  /** The extractor: the identity scan, then the aggregation scan, then the
      feature vector. */
  method TcpBasicFeatures(pkts: seq<Packet>) returns (r: Result<FeatureVector, ExtractError>)
    ensures r == Extract(pkts)
  {
    var total := |pkts|;
    var scan := FindConversation(pkts);
    if scan.Err? {
      return Err(scan.error);
    }
    var ident: Option<Endpoints> := None;
    var synTime: Option<real> := None;
    if scan.value.Some? {
      ident := Some(scan.value.value.ends);
      synTime := Some(scan.value.value.synTime);
    }
    var retrans, fwdPkts, revPkts, fwdBytes, revBytes, bytesApp, synackTime := Aggregate(pkts, ident, synTime);
    var synRtt := if synTime.Some? && synTime.value != 0.0 && synackTime.Some? && synackTime.value != 0.0
                  then Some(synackTime.value - synTime.value) else None;
    r := Ok(FeatureVector(
      pkts := total,
      retransEstimate := retrans,
      retransRate := if total > 0 then retrans as real / total as real else 0.0,
      synRttEstimate := synRtt,
      identity := ident,
      fwdPkts := fwdPkts,
      revPkts := revPkts,
      fwdBytes := fwdBytes,
      revBytes := revBytes,
      appBytes := bytesApp));
  }

  // ---------------------------------------------------------------------
  // Properties of the extracted features.

  /** Every IPv4/TCP packet is counted in exactly one direction, with its
      payload. */
  lemma {:induction false} DirectionsPartition(ident: Option<Endpoints>, s: seq<Packet>, n: nat)
    requires n <= |s|
    ensures DirPkts(ident, s, n, true) + DirPkts(ident, s, n, false) == IpTcpCount(s, n)
    ensures DirBytes(ident, s, n, true) + DirBytes(ident, s, n, false) == PayloadSum(s, n)
  {
    if n > 0 {
      DirectionsPartition(ident, s, n - 1);
    }
  }

  /** Without an identity no packet is forward. */
  lemma {:induction false} NoIdentityAllReverse(s: seq<Packet>, n: nat)
    requires n <= |s|
    ensures DirPkts(None, s, n, true) == 0 && DirBytes(None, s, n, true) == 0
  {
    if n > 0 {
      NoIdentityAllReverse(s, n - 1);
    }
  }

  /** Retransmissions are among the IPv4/TCP packets, which are among all
      packets; application bytes are among the payload bytes. */
  lemma {:induction false} CountBounds(s: seq<Packet>, n: nat)
    requires n <= |s|
    ensures Retrans(s, n) <= IpTcpCount(s, n) <= n
    ensures AppBytes(s, n) <= PayloadSum(s, n)
  {
    if n > 0 {
      CountBounds(s, n - 1);
    }
  }

  /** The seen-key set holds exactly the keys of the IPv4/TCP packets
      scanned so far. */
  lemma {:induction false} SeenKeysExactly(s: seq<Packet>, n: nat, k: SegmentKey)
    requires n <= |s|
    ensures k in SeenKeys(s, n) <==> exists j :: 0 <= j < n && IsIpTcp(s[j]) && KeyOf(s[j]) == k
  {
    if n > 0 {
      SeenKeysExactly(s, n - 1, k);
      if IsIpTcp(s[n - 1]) && KeyOf(s[n - 1]) == k {
        assert exists j :: 0 <= j < n && IsIpTcp(s[j]) && KeyOf(s[j]) == k;
      }
    }
  }

  /** A packet is counted as a retransmission exactly when it is IPv4/TCP,
      carries ACK, and an earlier IPv4/TCP packet had the same source, port,
      sequence number and payload length. So the first packet with a key is
      never counted, and a repeat without ACK is not counted either. */
  lemma CountedAtExactly(s: seq<Packet>, i: nat)
    requires i < |s|
    ensures CountedAt(s, i) <==>
      IsIpTcp(s[i]) && HasAck(s[i]) && exists j :: 0 <= j < i && IsIpTcp(s[j]) && KeyOf(s[j]) == KeyOf(s[i])
  {
    SeenKeysExactly(s, i, KeyOf(s[i]));
  }

  /** A rate of a part over a whole lies in [0, 1]. */
  lemma RateBounds(retrans: nat, total: nat)
    requires retrans <= total
    ensures 0.0 <= Rate(retrans, total) <= 1.0
  {
    if total > 0 {
      var r, t := retrans as real, total as real;
      assert Rate(retrans, total) * t == r;
    }
  }

  /** The totals of a feature vector: the packet count includes non-IP/TCP
      records, the rate is estimate over total (zero for an empty trace) and
      lies in [0, 1], the two directions share the IPv4/TCP packets and their
      payload, and application bytes are part of that payload. */
  lemma ExtractTotals(s: seq<Packet>, fv: FeatureVector)
    requires Extract(s) == Ok(fv)
    ensures fv.pkts == |s|
    ensures fv.retransEstimate <= IpTcpCount(s, |s|) <= fv.pkts
    ensures fv.retransRate == if |s| > 0 then fv.retransEstimate as real / |s| as real else 0.0
    ensures 0.0 <= fv.retransRate <= 1.0
    ensures fv.fwdPkts + fv.revPkts == IpTcpCount(s, |s|)
    ensures fv.fwdBytes + fv.revBytes == PayloadSum(s, |s|)
    ensures fv.appBytes <= fv.fwdBytes + fv.revBytes
  {
    CountBounds(s, |s|);
    DirectionsPartition(fv.identity, s, |s|);
    RateBounds(fv.retransEstimate, fv.pkts);
  }

  /** Extraction fails exactly when the first TCP packet with SYN set has no
      IPv4 layer. */
  lemma ExtractFailsExactly(s: seq<Packet>)
    ensures Extract(s).Err? <==> exists i :: 0 <= i < |s| && IsTcpSyn(s[i]) && !s[i].hasIp &&
                                   forall j :: 0 <= j < i ==> !IsTcpSyn(s[j])
  {
    if r: nat :| r < |s| && IsTcpSyn(s[r]) && !s[r].hasIp && forall j :: 0 <= j < r ==> !IsTcpSyn(s[j]) {
      assert FirstIndex(s, IsTcpSyn, |s|) == Some(r);
    }
  }

  /** With no TCP SYN in the trace: no identity, every packet reverse, and no
      handshake time (a SYN-ACK carries the SYN bit, so there is none either). */
  lemma NoSynFeatures(s: seq<Packet>)
    requires forall i :: 0 <= i < |s| ==> !IsTcpSyn(s[i])
    ensures Extract(s).Ok?
    ensures Extract(s).value.identity.None?
    ensures Extract(s).value.fwdPkts == 0 && Extract(s).value.fwdBytes == 0
    ensures Extract(s).value.revPkts == IpTcpCount(s, |s|)
    ensures Extract(s).value.synRttEstimate.None?
  {
    NoIdentityAllReverse(s, |s|);
    DirectionsPartition(None, s, |s|);
  }

  /** The identity and the SYN time come from the first TCP packet with SYN
      set, whether or not its ACK bit is also set. */
  lemma IdentityFromFirstSyn(s: seq<Packet>, i: nat)
    requires i < |s| && IsTcpSyn(s[i]) && s[i].hasIp
    requires forall j :: 0 <= j < i ==> !IsTcpSyn(s[j])
    ensures IdentityScan(s) == Ok(Some(SynInfo(Endpoints(s[i].src, s[i].sport, s[i].dst, s[i].dport), s[i].time)))
    ensures Extract(s).Ok?
    ensures Extract(s).value.identity == Some(Endpoints(s[i].src, s[i].sport, s[i].dst, s[i].dport))
  {
    assert FirstIndex(s, IsTcpSyn, |s|) == Some(i);
  }

  /** A first match found among the first `n` packets stays the first match
      however many packets follow. */
  lemma {:induction false} FirstIndexSettled(s: seq<Packet>, t: seq<Packet>, P: Packet -> bool, n: nat)
    requires n <= |s|
    requires FirstIndex(s, P, n).Some?
    ensures FirstIndex(s + t, P, |s + t|) == FirstIndex(s, P, n)
  {
    var i := FirstIndex(s, P, n).value;
    assert P((s + t)[i]);
    forall j | 0 <= j < i ensures !P((s + t)[j]) {
      assert (s + t)[j] == s[j];
    }
  }

  /** Once derived, the identity never changes: packets appended after a
      trace with a SYN leave the identity where it was (`SynAckSettled`
      states the same for the SYN-ACK time). */
  lemma IdentitySettled(s: seq<Packet>, t: seq<Packet>)
    requires Extract(s).Ok? && Extract(s).value.identity.Some?
    ensures Extract(s + t).Ok?
    ensures Extract(s + t).value.identity == Extract(s).value.identity
  {
    FirstIndexSettled(s, t, IsTcpSyn, |s|);
    var i := FirstIndex(s, IsTcpSyn, |s|).value;
    assert (s + t)[i] == s[i];
  }

  /** The SYN-ACK time is taken from the first IPv4/TCP SYN-ACK and is not
      overwritten by later ones. */
  lemma SynAckSettled(synTime: Option<real>, s: seq<Packet>, t: seq<Packet>)
    requires SynAckTime(synTime, s, |s|).Some?
    ensures SynAckTime(synTime, s + t, |s + t|) == SynAckTime(synTime, s, |s|)
  {
    FirstIndexSettled(s, t, IsIpTcpSynAck, |s|);
    var k := FirstIndex(s, IsIpTcpSynAck, |s|).value;
    assert (s + t)[k] == s[k];
  }

  /** The handshake estimate: given the first TCP SYN `i` (with IPv4) and the
      first IPv4/TCP SYN-ACK `k`, it is the time difference when both times
      are non-zero, and absent otherwise (a time of exactly 0.0 reads as
      absent). */
  lemma HandshakeFromFirstPackets(s: seq<Packet>, i: nat, k: nat)
    requires i < |s| && IsTcpSyn(s[i]) && s[i].hasIp
    requires forall j :: 0 <= j < i ==> !IsTcpSyn(s[j])
    requires k < |s| && IsIpTcpSynAck(s[k])
    requires forall j :: 0 <= j < k ==> !IsIpTcpSynAck(s[j])
    ensures Extract(s).Ok?
    ensures Extract(s).value.synRttEstimate ==
      if s[i].time != 0.0 && s[k].time != 0.0 then Some(s[k].time - s[i].time) else None
  {
    assert FirstIndex(s, IsTcpSyn, |s|) == Some(i);
    assert FirstIndex(s, IsIpTcpSynAck, |s|) == Some(k);
  }

  /** Without an IPv4/TCP SYN-ACK there is no handshake estimate. */
  lemma NoSynAckNoRtt(s: seq<Packet>)
    requires forall j :: 0 <= j < |s| ==> !IsIpTcpSynAck(s[j])
    requires Extract(s).Ok?
    ensures Extract(s).value.synRttEstimate.None?
  {
  }
}
