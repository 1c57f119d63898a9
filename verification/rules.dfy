/** The diagnosis engine: fixed threshold rules over a feature dictionary,
    evaluated in order, the last two only when nothing fired before them; the
    findings are ranked by confidence, highest first, ties in rule order, and
    the top one is the primary cause. */
module Rules {
  import opened Common
  import opened Sorting

  datatype Cause =
    | PacketLossOrMtuIssue
    | CongestionOrQueueing
    | ApplicationStallOrEmptyPayloads
    | NoIssueDetected

  /** The label under which a cause is reported. */
  function Label(c: Cause): string {
    match c
    case PacketLossOrMtuIssue => "packet_loss_or_mtu_issue"
    case CongestionOrQueueing => "congestion_or_queueing"
    case ApplicationStallOrEmptyPayloads => "application_stall_or_empty_payloads"
    case NoIssueDetected => "no_issue_detected"
  }

  /** The fixed confidence attached to each cause. */
  function Confidence(c: Cause): real {
    match c
    case PacketLossOrMtuIssue => 0.75
    case CongestionOrQueueing => 0.60
    case ApplicationStallOrEmptyPayloads => 0.55
    case NoIssueDetected => 0.30
  }

  datatype Finding = Finding(cause: Cause, confidence: real)

  /** The diagnosis: the primary cause, its confidence, and the feature
      dictionary it was derived from. */
  datatype Diagnosis = Diagnosis(primaryCause: Cause, confidence: real, evidence: FeatureMap)

  // ---------------------------------------------------------------------
  // Reading the dictionary.

  /** The value under `k`, or `default` when the key is missing. */
  function Get(m: FeatureMap, k: string, default: Value): Value {
    if k in m then m[k] else default
  }

  /** Truth value of a dictionary value: zero, null and the empty text are false. */
  predicate Truthy(v: Value) {
    match v
    case Num(x) => x != 0.0
    case Null => false
    case Str(t) => t != ""
  }

  /** The retransmission rate, zero when missing. */
  function RateOf(m: FeatureMap): real
    requires "retrans_rate" in m ==> m["retrans_rate"].Num?
  {
    Get(m, "retrans_rate", Num(0.0)).num
  }

  /** Rule 1: more than 5% of the packets were retransmission candidates. */
  predicate LossRule(m: FeatureMap)
    requires "retrans_rate" in m ==> m["retrans_rate"].Num?
  {
    RateOf(m) > 0.05
  }

  /** Rule 2: a handshake time is present, non-zero and above 0.3 seconds. */
  predicate LatencyRule(m: FeatureMap) {
    var rtt := Get(m, "syn_rtt_estimate", Null);
    rtt.Num? && Truthy(rtt) && rtt.num > 0.3
  }

  /** The application byte count is zero or missing. */
  predicate NoAppBytes(m: FeatureMap) {
    Get(m, "app_bytes", Num(0.0)) == Num(0.0)
  }

  /** The dictionary holds values that the rules can compare: a numeric rate,
      a handshake time that is a number whenever it is truthy, and a numeric
      packet count whenever rule 3 reaches it. Other values make the
      comparisons fail. */
  predicate Evaluable(m: FeatureMap) {
    && ("retrans_rate" in m ==> m["retrans_rate"].Num?)
    && (Truthy(Get(m, "syn_rtt_estimate", Null)) ==> Get(m, "syn_rtt_estimate", Null).Num?)
    && ("pkts" in m && !m["pkts"].Num? ==> LossRule(m) || LatencyRule(m) || !NoAppBytes(m))
  }

  /** The packet count, zero when missing. */
  function PktsOf(m: FeatureMap): real
    requires "pkts" in m ==> m["pkts"].Num?
  {
    Get(m, "pkts", Num(0.0)).num
  }

  /** Rule 3 (when nothing fired before): no application bytes in a
      non-empty trace. */
  predicate StallRule(m: FeatureMap)
    requires Evaluable(m)
  {
    !LossRule(m) && !LatencyRule(m) && NoAppBytes(m) && PktsOf(m) > 0.0
  }

  // ---------------------------------------------------------------------
  // Specification.

  /** The findings in rule order, before ranking. */
  function Findings(m: FeatureMap): (fs: seq<Finding>)
    requires Evaluable(m)
    ensures fs != []
  {
    var f1 := if LossRule(m) then [Finding(PacketLossOrMtuIssue, 0.75)] else [];
    var f2 := if LatencyRule(m) then f1 + [Finding(CongestionOrQueueing, 0.60)] else f1;
    var f3 := if f2 == [] && NoAppBytes(m) && PktsOf(m) > 0.0 then f2 + [Finding(ApplicationStallOrEmptyPayloads, 0.55)] else f2;
    if f3 == [] then f3 + [Finding(NoIssueDetected, 0.30)] else f3
  }

  /** The ranking key: a stable ascending sort on the negated confidence is
      a stable descending sort on the confidence. */
  function NegConfidence(f: Finding): real {
    -f.confidence
  }

  /** The findings ranked by confidence, highest first, ties in rule order. */
  function Ranked(m: FeatureMap): seq<Finding>
    requires Evaluable(m)
  {
    SortBy(Findings(m), NegConfidence)
  }

  /** The diagnosis: the top-ranked finding with the dictionary as evidence. */
  function Verdict(m: FeatureMap): Diagnosis
    requires Evaluable(m)
  {
    var top := Ranked(m)[0];
    Diagnosis(top.cause, top.confidence, m)
  }

  /** The independent reading of the rules as a decision list. */
  function PrimaryCause(m: FeatureMap): Cause
    requires Evaluable(m)
  {
    if LossRule(m) then PacketLossOrMtuIssue
    else if LatencyRule(m) then CongestionOrQueueing
    else if StallRule(m) then ApplicationStallOrEmptyPayloads
    else NoIssueDetected
  }

  // ---------------------------------------------------------------------
  // The engine.

  /** Evaluates the rules in order, appending a finding for each that fires;
      the last two only when nothing fired before them. */
  method CollectFindings(m: FeatureMap) returns (findings: seq<Finding>)
    requires Evaluable(m)
    ensures findings == Findings(m)
  {
    findings := [];
    if LossRule(m) {
      findings := findings + [Finding(PacketLossOrMtuIssue, 0.75)];
    }
    if LatencyRule(m) {
      findings := findings + [Finding(CongestionOrQueueing, 0.60)];
    }
    if findings == [] && NoAppBytes(m) && PktsOf(m) > 0.0 {
      findings := findings + [Finding(ApplicationStallOrEmptyPayloads, 0.55)];
    }
    if findings == [] {
      findings := findings + [Finding(NoIssueDetected, 0.30)];
    }
  }

  /** Copies the findings into an array and sorts it in place, highest
      confidence first, ties in rule order. */
  method RankFindings(findings: seq<Finding>) returns (ranked: array<Finding>)
    ensures fresh(ranked)
    ensures ranked[..] == SortBy(findings, NegConfidence)
  {
    ranked := new Finding[|findings|](i requires 0 <= i < |findings| => findings[i]);
    assert ranked[..] == findings;
    InsertionSort(ranked, NegConfidence);
  }

  /** Collects the findings, ranks them, and reports the top one with the
      dictionary as evidence. */
  method Diagnose(m: FeatureMap) returns (d: Diagnosis)
    requires Evaluable(m)
    ensures d == Verdict(m)
    ensures d.evidence == m
  {
    var findings := CollectFindings(m);
    var ranked := RankFindings(findings);
    assert ranked[..] == Ranked(m);
    var top := ranked[0];
    d := Diagnosis(top.cause, top.confidence, m);
  }

  // ---------------------------------------------------------------------
  // Properties.

  /** There are one or two findings; each carries its cause's confidence;
      the fallback findings (rules 3 and 4) only ever stand alone. */
  lemma FindingsShape(m: FeatureMap)
    requires Evaluable(m)
    ensures 1 <= |Findings(m)| <= 2
    ensures forall f :: f in Findings(m) ==> f.confidence == Confidence(f.cause)
    ensures forall f :: f in Findings(m) && (f.cause == ApplicationStallOrEmptyPayloads || f.cause == NoIssueDetected)
                        ==> Findings(m) == [f]
    ensures |Findings(m)| == 2 <==> LossRule(m) && LatencyRule(m)
  {
  }

  /** Ranking keeps the rule order: the findings are already in descending
      confidence. */
  lemma {:induction false} RankedIsRuleOrder(m: FeatureMap)
    requires Evaluable(m)
    ensures Ranked(m) == Findings(m)
  {
    var fs := Findings(m);
    FindingsShape(m);
    assert SortedBy(fs, NegConfidence) by {
      if |fs| == 2 {
        assert fs == [Finding(PacketLossOrMtuIssue, 0.75), Finding(CongestionOrQueueing, 0.60)];
      }
    }
    SortBySortedIdentity(fs, NegConfidence);
  }

  /** The sort-and-pick definition agrees with the decision list: the
      primary cause is the first rule that fires, with its own confidence. */
  lemma VerdictIsDecisionList(m: FeatureMap)
    requires Evaluable(m)
    ensures Verdict(m) == Diagnosis(PrimaryCause(m), Confidence(PrimaryCause(m)), m)
  {
    RankedIsRuleOrder(m);
  }

  /** The rules case by case: high loss wins whatever else holds; congestion
      exactly when loss is low and the handshake time is above 0.3 s; an
      application stall exactly when neither fired, no application bytes
      were seen and the trace is non-empty; otherwise no issue. The
      confidence is always one of the four constants. */
  lemma PrimaryCauseCases(m: FeatureMap)
    requires Evaluable(m)
    ensures RateOf(m) > 0.05 ==> Verdict(m).primaryCause == PacketLossOrMtuIssue && Verdict(m).confidence == 0.75
    ensures Verdict(m).primaryCause == CongestionOrQueueing <==> RateOf(m) <= 0.05 && LatencyRule(m)
    ensures Verdict(m).primaryCause == ApplicationStallOrEmptyPayloads <==>
      RateOf(m) <= 0.05 && !LatencyRule(m) && NoAppBytes(m) && PktsOf(m) > 0.0
    ensures Verdict(m).primaryCause == NoIssueDetected <==>
      RateOf(m) <= 0.05 && !LatencyRule(m) && !(NoAppBytes(m) && PktsOf(m) > 0.0)
    ensures Verdict(m).confidence == Confidence(Verdict(m).primaryCause)
    ensures Verdict(m).confidence in {0.75, 0.60, 0.55, 0.30}
    ensures Verdict(m).evidence == m
  {
    VerdictIsDecisionList(m);
  }

  /** Missing keys read as a zero rate, zero application bytes and zero
      packets: the empty dictionary gives no issue. */
  lemma EmptyEvidence()
    ensures Evaluable(map[])
    ensures Verdict(map[]) == Diagnosis(NoIssueDetected, 0.30, map[])
  {
    VerdictIsDecisionList(map[]);
  }

  /** The reported cause is one of the four labels, and the label names the
      cause unambiguously. */
  lemma ReportedLabel(m: FeatureMap)
    requires Evaluable(m)
    ensures Label(Verdict(m).primaryCause) in
      {"packet_loss_or_mtu_issue", "congestion_or_queueing", "application_stall_or_empty_payloads", "no_issue_detected"}
    ensures forall c :: Label(c) == Label(Verdict(m).primaryCause) ==> c == Verdict(m).primaryCause
  {
  }
}
