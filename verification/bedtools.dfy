/** The three bedtools operations the comparator chains together, as pure
    functions over in-memory interval sequences with bedtools' default semantics:
    `sort` (by chromosome, then start), `merge` (join records on one chromosome
    that overlap or touch end-to-start) and `intersect -u` (keep each record of
    the first set once if it overlaps some record of the second by a base). */
module Bedtools {
  import opened Intervals
  import opened Results

  /** Places `x` before the first record it sorts at or below. */
  function Insert(x: Interval, s: seq<Interval>): (r: seq<Interval>)
    ensures multiset(r) == multiset(s) + multiset{x}
    decreases |s|
  {
    if |s| == 0 || Le(x, s[0]) then [x] + s
    else
      assert s == [s[0]] + s[1..];
      [s[0]] + Insert(x, s[1..])
  }

  lemma {:induction false} InsertSorted(x: Interval, s: seq<Interval>)
    requires Sorted(s)
    ensures Sorted(Insert(x, s))
    decreases |s|
  {
    if |s| == 0 {
    } else if Le(x, s[0]) {
      forall j | 0 <= j < |s|
        ensures Le(x, s[j])
      {
        if j > 0 {
          LeTransitive(x, s[0], s[j]);
        }
      }
    } else {
      LeTotal(x, s[0]);
      var tail := Insert(x, s[1..]);
      InsertSorted(x, s[1..]);
      forall y | y in tail
        ensures Le(s[0], y)
      {
        assert y in multiset(tail);
      }
      var r := [s[0]] + tail;
      forall i, j | 0 <= i < j < |r|
        ensures Le(r[i], r[j])
      {
        if i > 0 {
          assert r[i] == tail[i - 1] && r[j] == tail[j - 1];
        } else {
          assert r[j] in tail;
        }
      }
    }
  }

  /** bedtools sort. */
  function Sort(s: seq<Interval>): (r: seq<Interval>)
    ensures multiset(r) == multiset(s)
    ensures |r| == |s|
    ensures Sorted(r)
    decreases |s|
  {
    if |s| == 0 then []
    else
      assert s == [s[0]] + s[1..];
      InsertSorted(s[0], Sort(s[1..]));
      Insert(s[0], Sort(s[1..]))
  }

  lemma {:induction false} SortKeepsSorted(s: seq<Interval>)
    requires Sorted(s)
    ensures Sort(s) == s
    decreases |s|
  {
    if |s| > 0 {
      SortKeepsSorted(s[1..]);
      assert s == [s[0]] + s[1..];
    }
  }

  /** Sorting keeps exactly the records, so it keeps the bases they cover. */
  lemma SortCovers(s: seq<Interval>, chrom: string, pos: int)
    ensures Covered(Sort(s), chrom, pos) <==> Covered(s, chrom, pos)
  {
    var r := Sort(s);
    if Covered(s, chrom, pos) {
      var x :| x in s && Covers(x, chrom, pos);
      assert x in multiset(s);
    }
    if Covered(r, chrom, pos) {
      var x :| x in r && Covers(x, chrom, pos);
      assert x in multiset(r);
    }
  }

  /** Sorting introduces no new start positions. */
  lemma SortOrigins(s: seq<Interval>)
    ensures forall x :: StartsFrom(x, Sort(s)) ==> StartsFrom(x, s)
  {
    var sorted := Sort(s);
    forall x | StartsFrom(x, sorted)
      ensures StartsFrom(x, s)
    {
      var i :| 0 <= i < |sorted| && sorted[i].chrom == x.chrom && sorted[i].start == x.start;
      assert sorted[i] in multiset(s);
      var k :| 0 <= k < |s| && s[k] == sorted[i];
    }
  }

  /** One sweep step of bedtools merge: `current` is the record being grown and
      `rest` the sorted records still to read. */
  function MergeFrom(current: Interval, rest: seq<Interval>): (r: seq<Interval>)
    ensures 1 <= |r| <= |rest| + 1
    ensures r[0].chrom == current.chrom && r[0].start == current.start
    decreases |rest|
  {
    if |rest| == 0 then [current]
    else if rest[0].chrom == current.chrom && rest[0].start <= current.end then
      var grown := Interval(current.chrom, current.start,
                            if rest[0].end > current.end then rest[0].end else current.end);
      MergeFrom(grown, rest[1..])
    else [current] + MergeFrom(rest[0], rest[1..])
  }

  lemma BeforeAfterGap(x: Interval, y: Interval, z: Interval)
    requires Le(x, y) && Le(y, z)
    requires !(y.chrom == x.chrom && y.start <= x.end)
    ensures Before(x, z)
  {
    if ChromLt(x.chrom, y.chrom) && ChromLt(y.chrom, z.chrom) {
      ChromLtTransitive(x.chrom, y.chrom, z.chrom);
    }
  }

  lemma {:induction false} MergeFromSeparated(current: Interval, rest: seq<Interval>)
    requires Sorted(rest)
    requires forall y :: y in rest ==> Le(current, y)
    ensures Separated(MergeFrom(current, rest))
    ensures forall z :: z in MergeFrom(current, rest) ==> Le(current, z)
    decreases |rest|
  {
    if |rest| == 0 {
    } else if rest[0].chrom == current.chrom && rest[0].start <= current.end {
      var grown := Interval(current.chrom, current.start,
                            if rest[0].end > current.end then rest[0].end else current.end);
      assert forall y :: y in rest[1..] ==> y in rest;
      MergeFromSeparated(grown, rest[1..]);
    } else {
      var tail := MergeFrom(rest[0], rest[1..]);
      forall y | y in rest[1..]
        ensures Le(rest[0], y)
      {
        var k :| 0 <= k < |rest[1..]| && rest[1..][k] == y;
        assert rest[k + 1] == y;
      }
      MergeFromSeparated(rest[0], rest[1..]);
      forall z | z in tail
        ensures Before(current, z) && Le(current, z)
      {
        BeforeAfterGap(current, rest[0], z);
        LeTransitive(current, rest[0], z);
      }
      var r := [current] + tail;
      forall i, j | 0 <= i < j < |r|
        ensures Before(r[i], r[j])
      {
        if i > 0 {
          assert r[i] == tail[i - 1] && r[j] == tail[j - 1];
        } else {
          assert r[j] in tail;
        }
      }
    }
  }

  lemma {:induction false} MergeFromCovers(current: Interval, rest: seq<Interval>, chrom: string, pos: int)
    requires forall y :: y in rest ==> Le(current, y)
    requires Sorted(rest)
    ensures Covered(MergeFrom(current, rest), chrom, pos)
        <==> Covers(current, chrom, pos) || Covered(rest, chrom, pos)
    decreases |rest|
  {
    if |rest| == 0 {
    } else {
      assert rest == [rest[0]] + rest[1..];
      assert Covered(rest, chrom, pos) <==> Covers(rest[0], chrom, pos) || Covered(rest[1..], chrom, pos);
      assert forall y :: y in rest[1..] ==> y in rest;
      forall y | y in rest[1..]
        ensures Le(rest[0], y)
      {
        var k :| 0 <= k < |rest[1..]| && rest[1..][k] == y;
        assert rest[k + 1] == y;
      }
      if rest[0].chrom == current.chrom && rest[0].start <= current.end {
        var grown := Interval(current.chrom, current.start,
                              if rest[0].end > current.end then rest[0].end else current.end);
        assert current.start <= rest[0].start by {
          assert Le(current, rest[0]);
          if ChromLt(current.chrom, rest[0].chrom) {
            ChromLtIrreflexive(current.chrom);
          }
        }
        assert Covers(grown, chrom, pos) <==> Covers(current, chrom, pos) || Covers(rest[0], chrom, pos);
        MergeFromCovers(grown, rest[1..], chrom, pos);
      } else {
        var tail := MergeFrom(rest[0], rest[1..]);
        MergeFromCovers(rest[0], rest[1..], chrom, pos);
        assert MergeFrom(current, rest) == [current] + tail;
        assert Covered([current] + tail, chrom, pos) <==> Covers(current, chrom, pos) || Covered(tail, chrom, pos);
      }
    }
  }

  /** Every merged record begins where some input record begins. */
  lemma {:induction false} MergeFromOrigins(current: Interval, rest: seq<Interval>)
    ensures forall z :: z in MergeFrom(current, rest) ==> StartsFrom(z, [current] + rest)
    decreases |rest|
  {
    var all := [current] + rest;
    assert all[0] == current;
    if |rest| == 0 {
    } else if rest[0].chrom == current.chrom && rest[0].start <= current.end {
      var grown := Interval(current.chrom, current.start,
                            if rest[0].end > current.end then rest[0].end else current.end);
      MergeFromOrigins(grown, rest[1..]);
      forall z | z in MergeFrom(grown, rest[1..])
        ensures StartsFrom(z, all)
      {
        var inner := [grown] + rest[1..];
        var i :| 0 <= i < |inner| && inner[i].chrom == z.chrom && inner[i].start == z.start;
        if i > 0 {
          assert inner[i] == all[i + 1];
        }
      }
    } else {
      MergeFromOrigins(rest[0], rest[1..]);
      assert [rest[0]] + rest[1..] == rest;
      forall z | z in MergeFrom(rest[0], rest[1..])
        ensures StartsFrom(z, all)
      {
        var i :| 0 <= i < |rest| && rest[i].chrom == z.chrom && rest[i].start == z.start;
        assert rest[i] == all[i + 1];
      }
    }
  }

  /** Merging records that each cover a base gives records that each cover a base. */
  lemma {:induction false} MergeFromNonEmpty(current: Interval, rest: seq<Interval>)
    requires current.start < current.end && NonEmpty(rest)
    ensures NonEmpty(MergeFrom(current, rest))
    decreases |rest|
  {
    if |rest| == 0 {
    } else if rest[0].chrom == current.chrom && rest[0].start <= current.end {
      MergeFromNonEmpty(Interval(current.chrom, current.start,
                                 if rest[0].end > current.end then rest[0].end else current.end), rest[1..]);
    } else {
      MergeFromNonEmpty(rest[0], rest[1..]);
    }
  }

  /** bedtools merge; like bedtools it demands sorted input. */
  function Merge(s: seq<Interval>): (r: seq<Interval>)
    requires Sorted(s)
    ensures |r| <= |s|
    ensures |s| > 0 ==> |r| > 0
    ensures Separated(r)
    ensures forall j :: 0 <= j < |r| ==> StartsFrom(r[j], s)
    ensures Valid(s) ==> Valid(r)
    ensures NonEmpty(s) ==> NonEmpty(r)
  {
    if |s| == 0 then []
    else
      MergeFromSeparated(s[0], s[1..]);
      MergeFromOrigins(s[0], s[1..]);
      assert [s[0]] + s[1..] == s;
      assert Valid(s) ==> Valid(MergeFrom(s[0], s[1..])) by {
        if Valid(s) {
          MergeFromValid(s[0], s[1..]);
        }
      }
      assert NonEmpty(s) ==> NonEmpty(MergeFrom(s[0], s[1..])) by {
        if NonEmpty(s) {
          MergeFromNonEmpty(s[0], s[1..]);
        }
      }
      MergeFrom(s[0], s[1..])
  }

  /** Merging changes the records but not the set of bases they cover. */
  lemma MergeCovers(s: seq<Interval>, chrom: string, pos: int)
    requires Sorted(s)
    ensures Covered(Merge(s), chrom, pos) <==> Covered(s, chrom, pos)
  {
    if |s| > 0 {
      MergeFromCovers(s[0], s[1..], chrom, pos);
      assert s == [s[0]] + s[1..];
      assert Covered(s, chrom, pos) <==> Covers(s[0], chrom, pos) || Covered(s[1..], chrom, pos);
    }
  }

  lemma {:induction false} MergeFromValid(current: Interval, rest: seq<Interval>)
    requires current.start <= current.end && Valid(rest)
    ensures Valid(MergeFrom(current, rest))
    decreases |rest|
  {
    if |rest| == 0 {
    } else if rest[0].chrom == current.chrom && rest[0].start <= current.end {
      MergeFromValid(Interval(current.chrom, current.start,
                              if rest[0].end > current.end then rest[0].end else current.end), rest[1..]);
    } else {
      MergeFromValid(rest[0], rest[1..]);
    }
  }

  lemma {:induction false} MergeFromKeepsSeparated(current: Interval, rest: seq<Interval>)
    requires Separated([current] + rest)
    ensures MergeFrom(current, rest) == [current] + rest
    decreases |rest|
  {
    var s := [current] + rest;
    if |rest| > 0 {
      assert s[0] == current && s[1] == rest[0];
      assert Before(current, rest[0]);
      assert Separated([rest[0]] + rest[1..]) by {
        assert [rest[0]] + rest[1..] == s[1..];
      }
      MergeFromKeepsSeparated(rest[0], rest[1..]);
      if rest[0].chrom == current.chrom {
        ChromLtIrreflexive(current.chrom);
      }
      assert [rest[0]] + rest[1..] == rest;
    }
  }

  /** A set that is already merged is left alone by merge. */
  lemma MergeKeepsSeparated(s: seq<Interval>)
    requires Separated(s) && Valid(s)
    ensures Sorted(s) && Merge(s) == s
  {
    SeparatedIsSorted(s);
    if |s| > 0 {
      assert s == [s[0]] + s[1..];
      MergeFromKeepsSeparated(s[0], s[1..]);
    }
  }

  /** Merge is idempotent on valid sorted input. */
  lemma MergeIdempotent(s: seq<Interval>)
    requires Sorted(s) && Valid(s)
    ensures Sorted(Merge(s)) && Merge(Merge(s)) == Merge(s)
  {
    if |s| > 0 {
      MergeFromValid(s[0], s[1..]);
    }
    MergeKeepsSeparated(Merge(s));
  }

  /** bedtools intersect -u: each record of `a` that overlaps some record of `b`,
      once, in the order of `a`. */
  function IntersectAny(a: seq<Interval>, b: seq<Interval>): (r: seq<Interval>)
    ensures |r| <= |a|
    ensures forall x :: multiset(r)[x] == if OverlapsAny(x, b) then multiset(a)[x] else 0
    decreases |a|
  {
    if |a| == 0 then []
    else
      assert a == [a[0]] + a[1..];
      if OverlapsAny(a[0], b) then [a[0]] + IntersectAny(a[1..], b)
      else IntersectAny(a[1..], b)
  }

  /** `intersect -u` is a filter of its first input by "overlaps the second". */
  lemma {:induction false} IntersectIsFilter(a: seq<Interval>, b: seq<Interval>)
    ensures IntersectAny(a, b) == Filter(a, x => OverlapsAny(x, b))
    decreases |a|
  {
    if |a| > 0 {
      IntersectIsFilter(a[1..], b);
    }
  }

  lemma IntersectMember(a: seq<Interval>, b: seq<Interval>, z: Interval)
    requires z in IntersectAny(a, b)
    ensures z in a
  {
    assert z in multiset(IntersectAny(a, b));
    assert z in multiset(a);
  }

  lemma SeparatedCons(x: Interval, tail: seq<Interval>)
    requires Separated(tail)
    requires forall z :: z in tail ==> Before(x, z)
    ensures Separated([x] + tail)
  {
    var r := [x] + tail;
    forall i, j | 0 <= i < j < |r|
      ensures Before(r[i], r[j])
    {
      if i > 0 {
        assert r[i] == tail[i - 1] && r[j] == tail[j - 1];
      } else {
        assert r[j] in tail;
      }
    }
  }

  /** Keeping a subsequence of a merged set leaves it merged. */
  lemma {:induction false} IntersectKeepsSeparated(a: seq<Interval>, b: seq<Interval>)
    requires Separated(a)
    ensures Separated(IntersectAny(a, b))
    decreases |a|
  {
    if |a| > 0 {
      var rest := a[1..];
      assert Separated(rest) by {
        forall i, j | 0 <= i < j < |rest|
          ensures Before(rest[i], rest[j])
        {
          assert rest[i] == a[i + 1] && rest[j] == a[j + 1];
        }
      }
      var tail := IntersectAny(rest, b);
      IntersectKeepsSeparated(rest, b);
      forall z | z in tail
        ensures Before(a[0], z)
      {
        IntersectMember(rest, b, z);
        var k :| 0 <= k < |rest| && rest[k] == z;
        assert a[k + 1] == z;
      }
      if OverlapsAny(a[0], b) {
        SeparatedCons(a[0], tail);
      }
    }
  }

  lemma IntersectKeepsValid(a: seq<Interval>, b: seq<Interval>)
    requires Valid(a)
    ensures Valid(IntersectAny(a, b))
  {
    var r := IntersectAny(a, b);
    forall i | 0 <= i < |r|
      ensures r[i].start <= r[i].end
    {
      IntersectMember(a, b, r[i]);
    }
  }
}
