# phalanx-sre TCP root-cause pipeline, in Dafny

This project models the data path of phalanx-sre's multi-hop TCP analysis.
Packet captures taken at several hops are merged into one trace. Flow
features are extracted from the merged trace. A small rule engine then turns
the features into a diagnosis. The BPF filter builders that select the
captured conversation are modelled as well.

- `common.dfy`, module `Common`: `Option`, `Result`, and the dictionary values
  (`Value`: a number, `None` or a string) that the extractor hands to the
  rule engine.
- `sorting.dfy`, module `Sorting`: Python's stable `list.sort`. It is
  specified as `SortBy`, an insertion sort by a real-valued key, and
  implemented in place on an `array` by `InsertionSort`. Stability is stated
  with `Filter`, the subsequence of elements that have one key value. A
  sorted sequence that keeps every key's subsequence is unique
  (`SortedStableUnique`). Sorting the concatenation of two sorted runs is
  their two-way merge (`SortByIsMerge`).
- `packets.dfy`, module `Packets`: the abstract packet record that replaces
  scapy's layered packets. It holds the time, layer presence (IPv4, TCP,
  Raw), addresses, ports, the TCP flag bits, the sequence number and the
  payload length. The module also holds the flag masks and the
  retransmission key.
- `stitch.dfy`, module `Stitch`: `merge_pcaps`. The method `MergePcaps` grows
  the packet list hop by hop and then sorts it in place by time.
- `features.dfy`, module `Features`: `tcp_basic_features`. Every quantity is
  specified as a function of the first `n` packets. The two scans are
  methods proved against those functions: `FindConversation` (the identity
  scan, with its early exit) and `Aggregate` (the counters, the seen-key set
  and the SYN-ACK time). `TcpBasicFeatures` composes the two.
- `rules.dfy`, module `Rules`: `diagnose` over the feature dictionary.
  `CollectFindings` appends findings under the ordered guards.
  `RankFindings` sorts them by descending confidence in an array.
  `Diagnose` picks the head.
- `pipeline.dfy`, module `Pipeline`: the composition
  `diagnose(tcp_basic_features(trace))` of the intelligence unit.
- `demo.dfy`, module `Demo`: the demo conversation. It is captured at two
  hops 4 ms apart, merged, analysed and diagnosed, and every step is stated
  as a lemma.
- `filters.dfy`, module `Filters`: the two BPF filter string builders. Both
  are pure functions. `ParseInt`, `ParseFiveTuple` and `ParseService`
  read the text back. They are not part of the program; they exist only to
  state that the output determines its fields. `FiveTupleText` and
  `ServiceText` regroup each builder's text field by field for those
  round-trip proofs.

Floating-point times and rates are modelled as `real`. The extractor's result
is a `FeatureVector`. `ToFeatureMap` turns it into the thirteen-key
dictionary that the rule engine reads. A missing value is `Null`, which
stands for Python's `None`.

## Model

| member | source | states |
|---|---|---|
| Sorting.InsertionSort | phalanx_agents/stitch_unit.py:12 | the array after the in-place sort is exactly `SortBy` of its old contents |
| Sorting.InsertAt | phalanx_agents/stitch_unit.py:12 | one insertion step: the prefix `a[..i+1]` becomes the old prefix with `a[i]` inserted after every element with a key not above it, and the rest of the array is unchanged |
| Sorting.SortBySorted | phalanx_agents/stitch_unit.py:12 | the sorted sequence has non-decreasing keys |
| Sorting.SortByPermutation | phalanx_agents/stitch_unit.py:12 | sorting keeps the multiset of elements: nothing is dropped, duplicated or deduplicated |
| Sorting.SortByStable | phalanx_agents/stitch_unit.py:12 | for every key value, the elements with that key appear in the same relative order as in the input |
| Sorting.SortBySortedIdentity | phalanx_agents/stitch_unit.py:12 | sorting an already sorted sequence returns it unchanged |
| Sorting.SortedStableUnique | phalanx_agents/stitch_unit.py:12 | two sorted sequences with equal per-key subsequences are equal, so a stable sort has exactly one possible output |
| Sorting.SortByCharacterized | phalanx_agents/stitch_unit.py:12 | any sorted sequence that keeps every key's subsequence of the input is `SortBy` of the input |
| Sorting.FilterAppend | phalanx_agents/stitch_unit.py:9-11 | the per-key subsequence of a concatenation is the concatenation of the per-key subsequences |
| Sorting.MergeBySorted | phalanx_agents/stitch_unit.py:12 | the two-way merge of two sorted runs is sorted |
| Sorting.MergeByFilter | phalanx_agents/stitch_unit.py:12 | in the two-way merge, the elements of one key come from the first run first, then from the second |
| Sorting.SortByIsMerge | phalanx_agents/stitch_unit.py:9-12 | sorting the concatenation of two sorted runs equals merging them, with ties going to the first run |
| Stitch.FlattenLength | phalanx_agents/stitch_unit.py:9-11 | the concatenated list has as many packets as all hops together |
| Stitch.MergePcaps | phalanx_agents/stitch_unit.py:7-15 | the merged trace is the stable time sort of the hops concatenated in order. Its length is the sum of the hop lengths; its times are non-decreasing; it is a permutation of the concatenation; packets with equal times keep concatenation order |
| Stitch.MergeEmpty | phalanx_agents/stitch_unit.py:8-12 | no input captures give an empty trace |
| Stitch.MergeSingle | phalanx_agents/stitch_unit.py:9-12 | a single capture comes back sorted with the same packets, and unchanged when it is already in time order |
| Stitch.MergeIdempotent | phalanx_agents/stitch_unit.py:12 | merging a merged trace again returns it unchanged |
| Stitch.FilterFlatten | phalanx_agents/stitch_unit.py:9-11 | the packets of one time in the concatenation are those of hop 1, then hop 2, and so on |
| Stitch.MergeStable | phalanx_agents/stitch_unit.py:9-12 | among packets with equal times, earlier captures come first and each capture's own order is kept |
| Stitch.MergedTraceCharacterized | phalanx_agents/stitch_unit.py:9-12 | any time-ordered trace with those per-time packet orders is the merged trace |
| Stitch.FlattenPair | phalanx_agents/stitch_unit.py:9-11 | two captures concatenate to the first followed by the second |
| Stitch.MergeTwoOrdered | phalanx_agents/stitch_unit.py:9-12 | merging two time-ordered captures is their two-way merge, with hop 1 first on equal times |
| Stitch.MergeOrderIndependentContents | phalanx_agents/stitch_unit.py:9-12 | swapping the two captures keeps the contents and the length; both merges are in time order, and at each timestamp each lists the first-given capture's packets, then the other's, so the merges differ only in the order of equal-time packets |
| Packets.SynAckIsSynAndAck | intel_core/features.py:56 | the `0x12` mask test holds exactly when both the SYN and the ACK bits are set |
| Features.FirstIndex | intel_core/features.py:26-34 | the index found is the first among the first `n` packets that satisfies the predicate; `None` means no such packet exists |
| Features.FindConversation | intel_core/features.py:26-34 | the identity scan returns the endpoints and time of the first TCP packet with the SYN bit. It fails when that packet has no IPv4 layer and finds nothing when there is no such packet |
| Features.Aggregate | intel_core/features.py:36-62 | after the loop, each counter, the retransmission estimate and the SYN-ACK time equal their specification over the whole trace |
| Features.TcpBasicFeatures | intel_core/features.py:4-80 | the extractor's result equals `Extract` of the trace |
| Features.ToFeatureMap | intel_core/features.py:66-80 | the feature dictionary has exactly the thirteen keys the extractor returns |
| Features.DirectionsPartition | intel_core/features.py:47-54 | forward plus reverse packets is the IPv4/TCP packet count, and forward plus reverse bytes is their payload total |
| Features.NoIdentityAllReverse | intel_core/features.py:47 | with no client identity, no packet or byte is counted as forward |
| Features.CountBounds | intel_core/features.py:36-62 | retransmissions are at most the IPv4/TCP packets, which are at most all packets; application bytes are at most the payload total |
| Features.SeenKeysExactly | intel_core/features.py:41-45 | a key is in the seen set exactly when an earlier IPv4/TCP packet had it |
| Features.CountedAtExactly | intel_core/features.py:41-45 | a packet counts as a retransmission exactly when it is IPv4/TCP, has ACK set and repeats an earlier packet's (source, port, sequence, length) key |
| Features.RateBounds | intel_core/features.py:69 | the retransmission rate lies in [0, 1] whenever the count is at most the total |
| Features.ExtractTotals | intel_core/features.py:4-80 | `pkts` counts every record; the rate is estimate over total, or 0.0 for an empty trace, and lies in [0, 1]; the direction counters partition the IPv4/TCP packets and bytes; application bytes are at most all bytes |
| Features.ExtractFailsExactly | intel_core/features.py:26-34 | extraction fails exactly when the first TCP SYN packet has no IPv4 layer |
| Features.NoSynFeatures | intel_core/features.py:20-64 | without a TCP SYN packet there is no identity and no handshake time, and every IPv4/TCP packet counts as reverse |
| Features.IdentityFromFirstSyn | intel_core/features.py:26-34 | the identity is the source and destination of the first TCP SYN packet, whether or not ACK is also set |
| Features.FirstIndexSettled | intel_core/features.py:26-34 | once a first match exists, packets appended later do not change it |
| Features.IdentitySettled | intel_core/features.py:26-34 | once a trace has an identity, appending packets never changes it |
| Features.SynAckSettled | intel_core/features.py:56-58 | once the SYN-ACK time is set, later packets never change it |
| Features.HandshakeFromFirstPackets | intel_core/features.py:56-64 | the handshake time is the first IPv4/TCP SYN-ACK's time minus the first SYN's time, and absent when either time is 0.0 |
| Features.NoSynAckNoRtt | intel_core/features.py:56-64 | without an IPv4/TCP SYN-ACK packet there is no handshake time |
| Rules.Findings | intel_core/rules.py:2-11 | the findings list is never empty |
| Rules.CollectFindings | intel_core/rules.py:2-11 | the appended findings equal the rule list: loss, then latency, then the stall and no-issue fallbacks, each gated on the list being empty |
| Rules.RankFindings | intel_core/rules.py:12 | the in-place descending sort returns the stable sort of the findings by negated confidence |
| Rules.Diagnose | intel_core/rules.py:1-14 | the diagnosis is the top-ranked finding's cause and confidence, with the input dictionary as evidence |
| Rules.FindingsShape | intel_core/rules.py:4-11 | there are one or two findings, each with its cause's confidence. A fallback finding is always alone, and there are two findings exactly when both the loss and the latency rules fire |
| Rules.RankedIsRuleOrder | intel_core/rules.py:12 | the descending sort leaves the findings in rule order, because a loss finding outranks a latency finding |
| Rules.VerdictIsDecisionList | intel_core/rules.py:1-14 | the diagnosis is the first rule that fires, with that rule's confidence |
| Rules.PrimaryCauseCases | intel_core/rules.py:4-14 | a rate above 0.05 always gives packet loss at 0.75. Each of the other three causes is chosen exactly under its gate; the confidence is the cause's own and one of 0.75, 0.60, 0.55 or 0.30; the evidence is the input |
| Rules.ReportedLabel | intel_core/rules.py:5-14 | the reported primary cause is one of the four label strings, and the label identifies the cause uniquely |
| Rules.EmptyEvidence | intel_core/rules.py:4-11 | an empty dictionary uses the defaults and gives no issue detected at 0.30 |
| Pipeline.FeatureMapReadsBack | phalanx_agents/intel_unit.py:10-11 | the rule engine reads the extractor's rate, handshake time, application bytes and packet count back unchanged from the dictionary |
| Pipeline.Run | phalanx_agents/intel_unit.py:9-15 | running the unit diagnoses the features extracted from the trace |
| Pipeline.AnalyzeCases | phalanx_agents/intel_unit.py:10-11 | on a trace that extracts, the diagnosis is the decision list evaluated on the feature vector, with the feature dictionary as evidence |
| Pipeline.EmptyTraceNoIssue | phalanx_agents/intel_unit.py:10-11 | an empty trace extracts to all-zero features and is diagnosed as no issue at 0.30 |
| Pipeline.NoCapturesNoIssue | phalanx_agents/intel_unit.py:10-11 | merging no captures and analysing the result gives no issue detected |
| Demo.DemoHopsOrdered | ui/demo_mode.py:31-51 | each hop's capture of the demo conversation is in time order |
| Demo.DemoInterleave | ui/demo_mode.py:42-51 | merging the two hops interleaves them packet by packet, hop 1 first |
| Demo.DemoMerge | ui/demo_mode.py:53-58 | the merged demo trace is the ten packets alternating between the hops |
| Demo.DemoHandshake | ui/demo_mode.py:31-40 | in the merged trace the first SYN is packet 0 and the first SYN-ACK is packet 2 |
| Demo.DemoRetrans | ui/demo_mode.py:42-51 | hop 2's SYN-ACK, ACK, data and final ACK repeat hop 1's keys with ACK set, so four retransmissions are estimated |
| Demo.DemoDirections | ui/demo_mode.py:31-51 | six forward and four reverse packets; both copies of the 22-byte request are forward, application bytes |
| Demo.DemoFeatures | ui/demo_mode.py:53-59 | the merged demo trace extracts to ten packets, four retransmissions, rate 0.4, a 50 ms handshake and the client/server identity |
| Demo.DemoDiagnosis | ui/demo_mode.py:53-59 | the demo is diagnosed as packet loss or MTU issue at 0.75 |
| Filters.LowerAscii | signal_capture/filters.py:6 | lower-casing keeps the length, leaves no upper-case letter, keeps every other character and shifts each upper-case letter by 32 |
| Filters.LowerIdempotent | signal_capture/filters.py:6 | lower-casing twice is lower-casing once |
| Filters.LowerCaseInsensitive | signal_capture/filters.py:6 | strings equal up to letter case lower-case to the same string |
| Filters.NatToDigits | signal_capture/filters.py:7 | a natural number prints as a non-empty digit string without a leading zero |
| Filters.IntToString | signal_capture/filters.py:7 | an integer prints as digits, with a leading minus sign exactly when it is negative |
| Filters.DigitsRoundTrip | signal_capture/filters.py:7 | a natural number's digit string reads back as that number |
| Filters.IntRoundTrip | signal_capture/filters.py:7 | an integer's printed form reads back as that integer |
| Filters.FiveTupleBpf | signal_capture/filters.py:5-7 | the conversation filter starts with the lower-cased protocol, ends with the destination port and a closing parenthesis, and is 44 characters longer than its fields |
| Filters.ServiceBpf | signal_capture/filters.py:9-11 | the service filter starts with the lower-cased protocol, ends with the port, and is 30 characters longer than its fields |
| Filters.FiveTupleRoundTrip | signal_capture/filters.py:5-7 | for space-free protocol and hosts, the conversation filter reads back as its lower-cased protocol, source host and port, and destination host and port |
| Filters.ServiceRoundTrip | signal_capture/filters.py:9-11 | for space-free protocol and hosts, the service filter reads back as its lower-cased protocol, both hosts and the port |
| Filters.ProtocolCaseInsensitive | signal_capture/filters.py:5-11 | any two protocol spellings that differ only in letter case give the same conversation filter and the same service filter |
| Filters.UpperCaseDefault | signal_capture/filters.py:5-11 | "TCP" gives the same filters as the default protocol "tcp" |

## Left out

- Reading and writing capture files (`rdpcap`, `wrpcap`), scapy's layer
  parsing, the progress `print`s and the module-level `mkdir`. They are
  replaced by the abstract `Packet` record. `MergePcaps` returns the merged
  trace instead of the output path it writes it to.
- The intelligence unit's JSON and Markdown file writes and the narrative
  from `intel_core/llm_explainer.py`. That narrative is presentation and
  does not feed back into the diagnosis; it is not part of this model.
- Floating point: times, the handshake time and the rate are `real`, so
  rounding of `float(p.time)` and of the division is not modelled.
- Packet fields the pipeline never reads (MAC addresses, TTL, the
  acknowledgement number) are not in the record, so the demo's TTL change
  on hop 2 does not appear.
- Filters.LowerAscii: models `str.lower()` on ASCII letters only; non-ASCII
  case mappings are not modelled.
- Rules.Diagnose: requires `Evaluable`: the rate is a number when present,
  the handshake time is a number whenever it is truthy, and the packet
  count is a number whenever rule 3 compares it. On other values Python's
  comparisons raise `TypeError`; that exception path is not modelled.
- Process and UI plumbing are not part of this model: capture launching
  (`phalanx_agents/capture_unit.py`), advisor voting, the topology map,
  the Streamlit app, the status snapshot and the upload API.
- The demo's wall-clock base time is a parameter, required positive;
  at exactly 0.0 the handshake time would be absent.
- Where the code and its description differ, the model follows the code:
  - the identity comes from the first TCP packet with the SYN bit, even a
    SYN-ACK;
  - a TCP SYN packet without an IPv4 layer raises an error (modelled as
    `Err(IpLayerMissing(i))`);
  - the SYN-ACK time is the first IPv4/TCP SYN-ACK anywhere in the trace,
    not necessarily after the SYN;
  - a SYN or SYN-ACK at time 0.0 counts as absent;
  - the diagnosis holds only the primary cause, its confidence and the
    evidence, not the ranked list.
