/** The analysis pipeline: the merged trace goes through the feature
    extractor, and the feature dictionary through the diagnosis engine.
    Writing the diagnosis and the narrative to files is not modelled. */
module Pipeline {
  import opened Common
  import opened Packets
  import opened Stitch
  import opened Features
  import opened Rules

  /** The dictionary the extractor returns reads back as the feature vector
      it came from, and the rules can always evaluate it. */
  lemma FeatureMapReadsBack(fv: FeatureVector)
    ensures Evaluable(ToFeatureMap(fv))
    ensures RateOf(ToFeatureMap(fv)) == fv.retransRate
    ensures LatencyRule(ToFeatureMap(fv)) <==> fv.synRttEstimate.Some? && fv.synRttEstimate.value > 0.3
    ensures NoAppBytes(ToFeatureMap(fv)) <==> fv.appBytes == 0
    ensures PktsOf(ToFeatureMap(fv)) == fv.pkts as real
  {
    var m := ToFeatureMap(fv);
    assert m["retrans_rate"] == Num(fv.retransRate);
    assert m["syn_rtt_estimate"] == if fv.synRttEstimate.Some? then Num(fv.synRttEstimate.value) else Null;
    assert m["app_bytes"] == Num(fv.appBytes as real);
    assert m["pkts"] == Num(fv.pkts as real);
  }

  /** The analysis of one trace: extract, then diagnose. */
  function Analyze(trace: seq<Packet>): Result<Diagnosis, ExtractError> {
    match Extract(trace)
    case Err(e) => Err(e)
    case Ok(fv) =>
      FeatureMapReadsBack(fv);
      Ok(Verdict(ToFeatureMap(fv)))
  }

  /** Runs the extractor and the engine on a merged trace. */
  method Run(trace: seq<Packet>) returns (r: Result<Diagnosis, ExtractError>)
    ensures r == Analyze(trace)
  {
    var feats := TcpBasicFeatures(trace);
    if feats.Err? {
      return Err(feats.error);
    }
    FeatureMapReadsBack(feats.value);
    var diag := Diagnose(ToFeatureMap(feats.value));
    r := Ok(diag);
  }

  /** The primary cause of a trace, stated on its feature vector. */
  lemma AnalyzeCases(trace: seq<Packet>, fv: FeatureVector)
    requires Extract(trace) == Ok(fv)
    ensures Analyze(trace).Ok? && Analyze(trace).value.evidence == ToFeatureMap(fv)
    ensures Analyze(trace).value.primaryCause ==
      if fv.retransRate > 0.05 then PacketLossOrMtuIssue
      else if fv.synRttEstimate.Some? && fv.synRttEstimate.value > 0.3 then CongestionOrQueueing
      else if fv.appBytes == 0 && fv.pkts > 0 then ApplicationStallOrEmptyPayloads
      else NoIssueDetected
    ensures Analyze(trace).value.confidence == Confidence(Analyze(trace).value.primaryCause)
  {
    FeatureMapReadsBack(fv);
    VerdictIsDecisionList(ToFeatureMap(fv));
  }

  /** An empty trace has all-zero features and no issue is detected. */
  lemma EmptyTraceNoIssue()
    ensures Extract([]) == Ok(FeatureVector(0, 0, 0.0, None, None, 0, 0, 0, 0, 0))
    ensures Analyze([]).Ok?
    ensures Analyze([]).value.primaryCause == NoIssueDetected && Analyze([]).value.confidence == 0.30
  {
    AnalyzeCases([], FeatureVector(0, 0, 0.0, None, None, 0, 0, 0, 0, 0));
  }

  /** Merging no captures and analysing the result detects no issue. */
  lemma NoCapturesNoIssue()
    ensures Analyze(MergedTrace([])).Ok?
    ensures Analyze(MergedTrace([])).value.primaryCause == NoIssueDetected
  {
    MergeEmpty();
    EmptyTraceNoIssue();
  }
}
