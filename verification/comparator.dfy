/** `_evaluate_one`: scoring one caller's calls of one event type in one size
    bin against the truth set, through filter, sort, merge, intersect and count. */
module Comparator {
  import opened Results
  import opened Intervals
  import opened Bedtools
  import opened SizeBins
  import opened Stats
  import opened Matcher

  /** A BED record: its position and its name column (the caller/type label). */
  datatype Feature = Feature(span: Interval, name: string)

  /** The three counts of one comparison. */
  datatype Tally = Tally(matched: nat, callTotal: nat, truthTotal: nat)

  datatype Evaluation = Evaluation(sensitivity: Stat, precision: Stat)

  function Spans(fs: seq<Feature>): (r: seq<Interval>)
    ensures |r| == |fs|
    ensures forall i :: 0 <= i < |fs| ==> r[i] == fs[i].span
  {
    seq(|fs|, i requires 0 <= i < |fs| => fs[i].span)
  }

  /** `.sort().merge()`: the calls as disjoint, non-touching spans. */
  function Normalize(s: seq<Interval>): (r: seq<Interval>)
    ensures Separated(r)
    ensures |r| <= |s|
    ensures |r| == 0 <==> |s| == 0
    ensures forall j :: 0 <= j < |r| ==> StartsFrom(r[j], s)
    ensures NonEmpty(s) ==> NonEmpty(r)
  {
    var sorted := Sort(s);
    SortOrigins(s);
    assert NonEmpty(s) ==> NonEmpty(sorted) by {
      if NonEmpty(s) {
        forall i | 0 <= i < |sorted|
          ensures sorted[i].start < sorted[i].end
        {
          assert sorted[i] in multiset(s);
        }
      }
    }
    Merge(sorted)
  }

  /** Two overlapping calls on one chromosome are merged into one record, so
      they count once in every total. */
  lemma OverlappingCallsCountOnce(chrom: string, truth: seq<Interval>)
    ensures Normalize([Interval(chrom, 0, 10), Interval(chrom, 5, 15)]) == [Interval(chrom, 0, 15)]
    ensures Compare([Interval(chrom, 0, 10), Interval(chrom, 5, 15)], truth).callTotal == 1
  {
    var s := [Interval(chrom, 0, 10), Interval(chrom, 5, 15)];
    assert Le(s[0], s[1]);
    SortKeepsSorted(s);
    assert s[1..][1..] == [];
    assert MergeFrom(s[0], s[1..]) == MergeFrom(Interval(chrom, 0, 15), []);
  }

  /** Normalizing keeps exactly the bases the records cover. */
  lemma NormalizeCovers(s: seq<Interval>, chrom: string, pos: int)
    ensures Covered(Normalize(s), chrom, pos) <==> Covered(s, chrom, pos)
  {
    SortCovers(s, chrom, pos);
    MergeCovers(Sort(s), chrom, pos);
  }

  lemma NormalizeValid(s: seq<Interval>)
    requires Valid(s)
    ensures Valid(Normalize(s))
  {
    var sorted := Sort(s);
    forall i | 0 <= i < |sorted|
      ensures sorted[i].start <= sorted[i].end
    {
      assert sorted[i] in multiset(s);
    }
    if |sorted| > 0 {
      MergeFromValid(sorted[0], sorted[1..]);
    }
  }

  /** A call overlaps some record of a set exactly when it overlaps some record
      of the set's normalized form: merging the truth set does not change which
      calls match. */
  lemma OverlapsNormalized(x: Interval, s: seq<Interval>)
    ensures OverlapsAny(x, Normalize(s)) <==> OverlapsAny(x, s)
  {
    OverlapsAnyCovered(x, s);
    OverlapsAnyCovered(x, Normalize(s));
    forall p | x.start <= p < x.end
      ensures Covered(Normalize(s), x.chrom, p) <==> Covered(s, x.chrom, p)
    {
      NormalizeCovers(s, x.chrom, p);
    }
  }

  /** Overlapping a set means sharing a base with one of its records. */
  lemma OverlapsAnyCovered(x: Interval, s: seq<Interval>)
    ensures OverlapsAny(x, s) <==> exists p :: x.start <= p < x.end && Covered(s, x.chrom, p)
  {
    if OverlapsAny(x, s) {
      var j :| 0 <= j < |s| && Overlaps(x, s[j]);
      var p := if x.start < s[j].start then s[j].start else x.start;
      assert s[j] in s && Covers(s[j], x.chrom, p);
      assert x.start <= p < x.end && Covered(s, x.chrom, p);
    }
    if exists p :: x.start <= p < x.end && Covered(s, x.chrom, p) {
      var p :| x.start <= p < x.end && Covered(s, x.chrom, p);
      var y :| y in s && Covers(y, x.chrom, p);
      var j :| 0 <= j < |s| && s[j] == y;
      assert Overlaps(x, s[j]);
    }
  }

  /** The comparison proper: `efeats` and `tfeats` are the normalized call and
      truth sets, and the matched count is the number of merged calls that
      overlap some truth record, re-sorted and re-merged. */
  function Compare(calls: seq<Interval>, truth: seq<Interval>): (t: Tally)
    ensures t.matched <= t.callTotal <= |calls|
    ensures t.truthTotal <= |truth|
    ensures t.callTotal == |Normalize(calls)| && t.truthTotal == |Normalize(truth)|
    ensures t.callTotal == 0 <==> |calls| == 0
    ensures t.truthTotal == 0 <==> |truth| == 0
    ensures Valid(calls) ==> t.matched == |Filter(Normalize(calls), x => OverlapsAny(x, truth))|
  {
    MatchedIsFilter(calls, truth);
    var efeats := Normalize(calls);
    var tfeats := Normalize(truth);
    Tally(|Normalize(IntersectAny(efeats, tfeats))|, |efeats|, |tfeats|)
  }

  /** The matched count, computed through the normalized truth set, is the
      number of normalized calls that overlap some original truth record. */
  lemma MatchedIsFilter(calls: seq<Interval>, truth: seq<Interval>)
    ensures Valid(calls) ==> |Normalize(IntersectAny(Normalize(calls), Normalize(truth)))|
                             == |Filter(Normalize(calls), x => OverlapsAny(x, truth))|
  {
    var efeats := Normalize(calls);
    var tfeats := Normalize(truth);
    if Valid(calls) {
      MatchedIsOverlappingCalls(calls, truth);
      IntersectIsFilter(efeats, tfeats);
      forall x | x in efeats
        ensures OverlapsAny(x, tfeats) == OverlapsAny(x, truth)
      {
        OverlapsNormalized(x, truth);
      }
      FilterCongruent(efeats, x => OverlapsAny(x, tfeats), x => OverlapsAny(x, truth));
    }
  }

  /** Re-sorting and re-merging the matched calls never joins two of them, so
      the matched count is exactly the number of merged calls that overlap the
      truth. */
  lemma MatchedIsOverlappingCalls(calls: seq<Interval>, truth: seq<Interval>)
    requires Valid(calls)
    ensures Normalize(IntersectAny(Normalize(calls), Normalize(truth)))
            == IntersectAny(Normalize(calls), Normalize(truth))
  {
    var efeats := Normalize(calls);
    var hits := IntersectAny(efeats, Normalize(truth));
    NormalizeValid(calls);
    IntersectKeepsSeparated(efeats, Normalize(truth));
    IntersectKeepsValid(efeats, Normalize(truth));
    MergeKeepsSeparated(hits);
    SortKeepsSorted(hits);
  }

  /** Sensitivity counts matched calls, not recovered truth records, so it can
      exceed 100%: two separate calls that both overlap one truth record give
      2 matched against a truth total of 1, on any chromosome. */
  lemma SensitivityCanExceedHundred(chrom: string)
    ensures Compare([Interval(chrom, 0, 10), Interval(chrom, 20, 30)], [Interval(chrom, 5, 25)])
            == Tally(2, 2, 1)
  {
    var calls := [Interval(chrom, 0, 10), Interval(chrom, 20, 30)];
    var truth := [Interval(chrom, 5, 25)];
    assert Before(calls[0], calls[1]);
    assert Overlaps(calls[0], truth[0]) && Overlaps(calls[1], truth[0]);
    CompareAllHit(calls, truth);
  }

  /** When the calls and the truth are already in normal form and every call
      overlaps the truth, every call counts as matched. */
  lemma CompareAllHit(calls: seq<Interval>, truth: seq<Interval>)
    requires Separated(calls) && Valid(calls) && Separated(truth) && Valid(truth)
    requires forall i :: 0 <= i < |calls| ==> OverlapsAny(calls[i], truth)
    ensures Compare(calls, truth) == Tally(|calls|, |calls|, |truth|)
  {
    NormalizeSeparated(calls);
    NormalizeSeparated(truth);
    IntersectIsFilter(calls, truth);
    FilterAll(calls, x => OverlapsAny(x, truth));
  }

  /** Records already sorted and apart are their own normal form. */
  lemma NormalizeSeparated(s: seq<Interval>)
    requires Separated(s) && Valid(s)
    ensures Normalize(s) == s
  {
    MergeKeepsSeparated(s);
    SortKeepsSorted(s);
  }

  /** `.filter(in_size_range).filter(is_caller_svtype)`: the calls in the bin
      whose label names this caller and event type, in their original order.
      The label test runs only on records in the bin, and the first one that
      raises makes the whole filter raise. */
  function SelectCalls(feats: seq<Feature>, caller: string, svtype: string, bin: SizeBin, ploidy: int)
    : (r: Result<seq<Feature>>)
    ensures r.Ok? <==> forall i :: 0 <= i < |feats| && InSizeRange(feats[i].span, bin) ==>
                                     IsCallerSvtype(feats[i].name, caller, svtype, ploidy).Ok?
    ensures r.Err? ==> exists i :: && 0 <= i < |feats| && InSizeRange(feats[i].span, bin)
                                   && IsCallerSvtype(feats[i].name, caller, svtype, ploidy) == Err(r.error)
                                   && forall j :: 0 <= j < i && InSizeRange(feats[j].span, bin) ==>
                                                    IsCallerSvtype(feats[j].name, caller, svtype, ploidy).Ok?
    ensures r.Ok? ==> forall f :: multiset(r.value)[f] ==
                        if InSizeRange(f.span, bin) && IsCallerSvtype(f.name, caller, svtype, ploidy) == Ok(true)
                        then multiset(feats)[f] else 0
    ensures r.Ok? ==> (|r.value| == 0 <==>
                       forall i :: 0 <= i < |feats| ==>
                         !(InSizeRange(feats[i].span, bin) && IsCallerSvtype(feats[i].name, caller, svtype, ploidy) == Ok(true)))
  {
    FilterResult(feats, (f: Feature) => InSizeRange(f.span, bin),
                 (f: Feature) => IsCallerSvtype(f.name, caller, svtype, ploidy))
  }

  /** `.filter(in_size_range)` on the truth set. */
  function SelectTruth(feats: seq<Feature>, bin: SizeBin): (r: seq<Feature>)
    ensures forall f :: multiset(r)[f] == if InSizeRange(f.span, bin) then multiset(feats)[f] else 0
    ensures |r| == 0 <==> forall i :: 0 <= i < |feats| ==> !InSizeRange(feats[i].span, bin)
    decreases |feats|
  {
    if |feats| == 0 then []
    else
      assert feats == [feats[0]] + feats[1..];
      assert forall i :: 1 <= i < |feats| ==> feats[i] == feats[1..][i - 1];
      if InSizeRange(feats[0].span, bin) then [feats[0]] + SelectTruth(feats[1..], bin)
      else SelectTruth(feats[1..], bin)
  }

  /** `_evaluate_one` with the ploidy passed in. Precision never exceeds 100%;
      a stat is blank exactly when its denominator set is empty in this bin. */
  function EvaluateOne(caller: string, svtype: string, bin: SizeBin, calls: seq<Feature>,
                       truth: seq<Feature>, ploidy: int): (r: Result<Evaluation>)
    ensures r.Err? <==> SelectCalls(calls, caller, svtype, bin, ploidy).Err?
    ensures r.Ok? ==> r.value.precision.value <= 100.0
    ensures r.Ok? ==> (r.value.sensitivity.text == Blank <==>
                       forall i :: 0 <= i < |truth| ==> !InSizeRange(truth[i].span, bin))
    ensures r.Ok? ==> (r.value.precision.text == Blank <==>
                       forall i :: 0 <= i < |calls| ==>
                         !(InSizeRange(calls[i].span, bin) && IsCallerSvtype(calls[i].name, caller, svtype, ploidy) == Ok(true)))
    ensures r.Err? ==> r.error == SelectCalls(calls, caller, svtype, bin, ploidy).error
    ensures r.Ok? ==>
              var t := Compare(Spans(SelectCalls(calls, caller, svtype, bin, ploidy).value),
                               Spans(SelectTruth(truth, bin)));
              r.value == Evaluation(StatOf(t.matched, t.truthTotal), StatOf(t.matched, t.callTotal))
  {
    var selected :- SelectCalls(calls, caller, svtype, bin, ploidy);
    var t := Compare(Spans(selected), Spans(SelectTruth(truth, bin)));
    StatAtMostHundred(t.matched, t.callTotal);
    Ok(Evaluation(StatOf(t.matched, t.truthTotal), StatOf(t.matched, t.callTotal)))
  }
}
