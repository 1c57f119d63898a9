/** The capture merger: per-hop packet lists are concatenated in the order
    given and the result is stably sorted by capture time. Nothing is dropped
    or deduplicated. */
module Stitch {
  import opened Packets
  import opened Sorting

  /** The per-hop lists concatenated in order. */
  function Flatten(hops: seq<seq<Packet>>): seq<Packet> {
    if hops == [] then [] else Flatten(hops[..|hops| - 1]) + hops[|hops| - 1]
  }

  /** The sum of the per-hop list lengths. */
  function TotalLength(hops: seq<seq<Packet>>): nat {
    if hops == [] then 0 else TotalLength(hops[..|hops| - 1]) + |hops[|hops| - 1]|
  }

  /** The merged trace: the concatenation, stably sorted by time. */
  function MergedTrace(hops: seq<seq<Packet>>): seq<Packet> {
    SortBy(Flatten(hops), Time)
  }

  lemma {:induction false} FlattenLength(hops: seq<seq<Packet>>)
    ensures |Flatten(hops)| == TotalLength(hops)
    decreases |hops|
  {
    if hops != [] {
      FlattenLength(hops[..|hops| - 1]);
    }
  }

  /** Reads every hop's packets into one list, then sorts it in place by time. */
  method MergePcaps(hops: seq<seq<Packet>>) returns (merged: seq<Packet>)
    ensures merged == MergedTrace(hops)
    ensures |merged| == TotalLength(hops)
    ensures SortedBy(merged, Time)
    ensures multiset(merged) == multiset(Flatten(hops))
    ensures forall k :: Filter(merged, Time, k) == Filter(Flatten(hops), Time, k)
  {
    var packets: seq<Packet> := [];
    var i := 0;
    while i < |hops|
      invariant 0 <= i <= |hops|
      invariant packets == Flatten(hops[..i])
    {
      assert hops[..i + 1][..i] == hops[..i];
      packets := packets + hops[i];
      i := i + 1;
    }
    assert hops[..|hops|] == hops;
    var a := new Packet[|packets|](k requires 0 <= k < |packets| => packets[k]);
    assert a[..] == packets;
    InsertionSort(a, Time);
    merged := a[..];
    FlattenLength(hops);
    SortBySorted(packets, Time);
    SortByPermutation(packets, Time);
    forall k ensures Filter(merged, Time, k) == Filter(packets, Time, k) {
      SortByStable(packets, Time, k);
    }
  }

  /** An empty list of captures merges to an empty trace. */
  lemma MergeEmpty()
    ensures MergedTrace([]) == []
  {
  }

  /** A single capture is returned sorted by time, with the same packets. */
  lemma MergeSingle(t: seq<Packet>)
    ensures MergedTrace([t]) == SortBy(t, Time)
    ensures SortedBy(MergedTrace([t]), Time)
    ensures multiset(MergedTrace([t])) == multiset(t)
    ensures SortedBy(t, Time) ==> MergedTrace([t]) == t
  {
    assert Flatten([t]) == t by {
      assert [t][..0] == [];
    }
    SortBySorted(t, Time);
    SortByPermutation(t, Time);
    if SortedBy(t, Time) {
      SortBySortedIdentity(t, Time);
    }
  }

  /** Merging an already merged trace again returns it unchanged. */
  lemma MergeIdempotent(hops: seq<seq<Packet>>)
    ensures MergedTrace([MergedTrace(hops)]) == MergedTrace(hops)
  {
    SortBySorted(Flatten(hops), Time);
    MergeSingle(MergedTrace(hops));
  }

  /** The packets with one timestamp, hop by hop. */
  function FilterHops(hops: seq<seq<Packet>>, k: real): seq<seq<Packet>> {
    seq(|hops|, i requires 0 <= i < |hops| => Filter(hops[i], Time, k))
  }

  /** Stability across hops: among packets with equal timestamps, the merged
      trace lists the first hop's packets first, each hop in its own order. */
  lemma {:induction false} MergeStable(hops: seq<seq<Packet>>, k: real)
    ensures Filter(MergedTrace(hops), Time, k) == Flatten(FilterHops(hops, k))
    decreases |hops|
  {
    SortByStable(Flatten(hops), Time, k);
    FilterFlatten(hops, k);
  }

  lemma {:induction false} FilterFlatten(hops: seq<seq<Packet>>, k: real)
    ensures Filter(Flatten(hops), Time, k) == Flatten(FilterHops(hops, k))
    decreases |hops|
  {
    if hops != [] {
      var init := hops[..|hops| - 1];
      FilterFlatten(init, k);
      FilterAppend(Flatten(init), hops[|hops| - 1], Time, k);
      assert FilterHops(hops, k)[..|hops| - 1] == FilterHops(init, k);
    }
  }

  /** The merged trace is the only time-ordered sequence that keeps, for
      every timestamp, the packets carrying it in capture order, hop by
      hop. */
  lemma MergedTraceCharacterized(hops: seq<seq<Packet>>, o: seq<Packet>)
    requires SortedBy(o, Time)
    requires forall k :: Filter(o, Time, k) == Flatten(FilterHops(hops, k))
    ensures o == MergedTrace(hops)
  {
    forall k ensures Filter(o, Time, k) == Filter(Flatten(hops), Time, k) {
      FilterFlatten(hops, k);
    }
    SortByCharacterized(Flatten(hops), o, Time);
  }

  lemma FlattenPair(t1: seq<Packet>, t2: seq<Packet>)
    ensures Flatten([t1, t2]) == t1 + t2
  {
    assert [t1, t2][..1] == [t1];
    assert [t1][..0] == [];
    assert Flatten([t1]) == t1;
  }

  /** Stitching two time-ordered captures is the two-way merge of them:
      on equal timestamps the first capture's packets come first. */
  lemma MergeTwoOrdered(t1: seq<Packet>, t2: seq<Packet>)
    requires SortedBy(t1, Time) && SortedBy(t2, Time)
    ensures MergedTrace([t1, t2]) == MergeBy(t1, t2, Time)
  {
    FlattenPair(t1, t2);
    SortByIsMerge(t1, t2, Time);
  }

  /** Two captures merge to the same packets whichever is given first; both
      merges are in time order, and within one timestamp each lists the
      first-given capture's packets before the other's, so the two differ
      only in the order of equal-time packets. */
  lemma MergeOrderIndependentContents(t1: seq<Packet>, t2: seq<Packet>)
    ensures multiset(MergedTrace([t1, t2])) == multiset(MergedTrace([t2, t1]))
    ensures |MergedTrace([t1, t2])| == |t1| + |t2|
    ensures SortedBy(MergedTrace([t1, t2]), Time) && SortedBy(MergedTrace([t2, t1]), Time)
    ensures forall k :: Filter(MergedTrace([t1, t2]), Time, k) == Filter(t1, Time, k) + Filter(t2, Time, k)
    ensures forall k :: Filter(MergedTrace([t2, t1]), Time, k) == Filter(t2, Time, k) + Filter(t1, Time, k)
  {
    FlattenPair(t1, t2);
    FlattenPair(t2, t1);
    SortByPermutation(t1 + t2, Time);
    SortByPermutation(t2 + t1, Time);
    SortBySorted(t1 + t2, Time);
    SortBySorted(t2 + t1, Time);
    forall k
      ensures Filter(MergedTrace([t1, t2]), Time, k) == Filter(t1, Time, k) + Filter(t2, Time, k)
      ensures Filter(MergedTrace([t2, t1]), Time, k) == Filter(t2, Time, k) + Filter(t1, Time, k)
    {
      SortByStable(t1 + t2, Time, k);
      SortByStable(t2 + t1, Time, k);
      FilterAppend(t1, t2, Time, k);
      FilterAppend(t2, t1, Time, k);
    }
  }
}
