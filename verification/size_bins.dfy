/** The size strata of the evaluation: `EVENT_SIZES` and `in_size_range`. */
module SizeBins {
  import opened Results
  import opened Intervals

  /** The half-open length range `[lo, hi)`. */
  datatype SizeBin = SizeBin(lo: int, hi: int)

  /** `EVENT_SIZES`, in the order the report lists them. */
  const EventSizes: seq<SizeBin> := [
    SizeBin(1, 450), SizeBin(450, 2000), SizeBin(2000, 4000),
    SizeBin(4000, 20000), SizeBin(20000, 60000), SizeBin(60000, 1000000)
  ]

  predicate Contains(bin: SizeBin, len: int) {
    bin.lo <= len < bin.hi
  }

  function Length(x: Interval): int {
    x.end - x.start
  }

  /** `in_size_range`: the record's length `end - start` lies in the bin. */
  predicate InSizeRange(x: Interval, bin: SizeBin) {
    Contains(bin, Length(x))
  }

  /** Each bin is non-empty and starts where the previous one ends. */
  predicate Contiguous(bins: seq<SizeBin>) {
    && (forall i :: 0 <= i < |bins| ==> bins[i].lo < bins[i].hi)
    && (forall i :: 0 < i < |bins| ==> bins[i - 1].hi == bins[i].lo)
  }

  /** The first bin holding `len`, if any. */
  function BinOf(bins: seq<SizeBin>, len: int): (r: Option<nat>)
    ensures r.Some? ==> r.value < |bins| && Contains(bins[r.value], len)
    ensures r.None? ==> forall i :: 0 <= i < |bins| ==> !Contains(bins[i], len)
    decreases |bins|
  {
    if |bins| == 0 then None
    else if Contains(bins[0], len) then Some(0)
    else
      match BinOf(bins[1..], len)
      case None =>
        assert forall i :: 1 <= i < |bins| ==> bins[i] == bins[1..][i - 1];
        None
      case Some(k) => Some(k + 1)
  }

  lemma {:induction false} ContiguousOrdered(bins: seq<SizeBin>, i: nat, j: nat)
    requires Contiguous(bins)
    requires i < j < |bins|
    ensures bins[i].hi <= bins[j].lo
    decreases j - i
  {
    if i + 1 < j {
      ContiguousOrdered(bins, i + 1, j);
    }
  }

  lemma {:induction false} ContiguousCovers(bins: seq<SizeBin>, len: int)
    requires |bins| > 0 && Contiguous(bins)
    ensures BinOf(bins, len).Some? <==> bins[0].lo <= len < bins[|bins| - 1].hi
    decreases |bins|
  {
    if |bins| > 1 {
      var tail := bins[1..];
      assert Contiguous(tail) by {
        forall i | 0 < i < |tail|
          ensures tail[i - 1].hi == tail[i].lo
        {
          assert tail[i - 1] == bins[i] && tail[i] == bins[i + 1];
        }
      }
      ContiguousCovers(tail, len);
      assert bins[0].hi == tail[0].lo;
      if BinOf(bins, len).Some? {
        var k := BinOf(bins, len).value;
        if k > 0 {
          ContiguousOrdered(bins, 0, k);
        }
        if k < |bins| - 1 {
          ContiguousOrdered(bins, k, |bins| - 1);
        }
      }
    }
  }

  /** In contiguous bins a length lies in at most one bin. */
  lemma ContiguousUnique(bins: seq<SizeBin>, len: int, i: nat, j: nat)
    requires Contiguous(bins)
    requires i < |bins| && j < |bins|
    requires Contains(bins[i], len) && Contains(bins[j], len)
    ensures i == j
  {
    if i < j {
      ContiguousOrdered(bins, i, j);
    } else if j < i {
      ContiguousOrdered(bins, j, i);
    }
  }

  /** The size strata partition event lengths: every length in `[1, 1000000)`
      lies in exactly one bin of `EventSizes`, and every other length in none. */
  lemma EventSizesPartition(len: int)
    ensures BinOf(EventSizes, len).Some? <==> 1 <= len < 1000000
    ensures forall i :: 0 <= i < |EventSizes| && Contains(EventSizes[i], len) ==>
              BinOf(EventSizes, len) == Some(i)
  {
    assert Contiguous(EventSizes) by {
      forall i | 0 < i < |EventSizes|
        ensures EventSizes[i - 1].hi == EventSizes[i].lo
      {
        if i == 1 {} else if i == 2 {} else if i == 3 {} else if i == 4 {} else {}
      }
    }
    ContiguousCovers(EventSizes, len);
    forall i | 0 <= i < |EventSizes| && Contains(EventSizes[i], len)
      ensures BinOf(EventSizes, len) == Some(i)
    {
      ContiguousUnique(EventSizes, len, i, BinOf(EventSizes, len).value);
    }
  }

  /** A record is in a size stratum of `EventSizes` exactly when its length lies
      in `[1, 1000000)`, and then in only one: every evaluated call is counted in
      one bin at most. */
  lemma InSizeRangeEventSizes(x: Interval)
    ensures (exists i :: 0 <= i < |EventSizes| && InSizeRange(x, EventSizes[i])) <==> 1 <= Length(x) < 1000000
    ensures forall i, j ::
              (&& 0 <= i < |EventSizes| && 0 <= j < |EventSizes|
               && InSizeRange(x, EventSizes[i]) && InSizeRange(x, EventSizes[j])) ==> i == j
  {
    EventSizesPartition(Length(x));
    var found := BinOf(EventSizes, Length(x));
    if found.Some? {
      assert InSizeRange(x, EventSizes[found.value]);
    }
  }
}
