/** Genomic intervals in BED coordinates (0-based, half-open) and the orders on
    them that the interval operations rely on. */
module Intervals {

  /** One BED record's position: bases `start .. end - 1` of chromosome `chrom`. */
  datatype Interval = Interval(chrom: string, start: int, end: int)

  /** A record bedtools accepts: its end is not before its start. */
  predicate Valid(s: seq<Interval>) {
    forall i :: 0 <= i < |s| ==> s[i].start <= s[i].end
  }

  /** Every record covers at least one base. */
  predicate NonEmpty(s: seq<Interval>) {
    forall i :: 0 <= i < |s| ==> s[i].start < s[i].end
  }

  /** `x` begins where some record of `s` begins. */
  predicate StartsFrom(x: Interval, s: seq<Interval>) {
    exists i :: 0 <= i < |s| && s[i].chrom == x.chrom && s[i].start == x.start
  }

  /** Character-wise lexicographic order on chromosome names (the order bedtools
      sort puts chromosomes in). */
  predicate ChromLt(a: string, b: string)
    decreases |a|
  {
    |b| > 0 && (|a| == 0 || a[0] < b[0] || (a[0] == b[0] && ChromLt(a[1..], b[1..])))
  }

  lemma {:induction false} ChromLtIrreflexive(a: string)
    ensures !ChromLt(a, a)
    decreases |a|
  {
    if |a| > 0 {
      ChromLtIrreflexive(a[1..]);
    }
  }

  lemma {:induction false} ChromLtTransitive(a: string, b: string, c: string)
    requires ChromLt(a, b) && ChromLt(b, c)
    ensures ChromLt(a, c)
    decreases |a|
  {
    if |a| > 0 && a[0] == b[0] && b[0] == c[0] {
      ChromLtTransitive(a[1..], b[1..], c[1..]);
    }
  }

  lemma {:induction false} ChromLtTotal(a: string, b: string)
    ensures a == b || ChromLt(a, b) || ChromLt(b, a)
    decreases |a|
  {
    if |a| > 0 && |b| > 0 && a[0] == b[0] {
      ChromLtTotal(a[1..], b[1..]);
      if a[1..] == b[1..] {
        assert a == [a[0]] + a[1..] && b == [b[0]] + b[1..];
      }
    }
  }

  /** The sort key of bedtools sort: chromosome, then start. */
  predicate Le(x: Interval, y: Interval) {
    ChromLt(x.chrom, y.chrom) || (x.chrom == y.chrom && x.start <= y.start)
  }

  lemma LeTransitive(x: Interval, y: Interval, z: Interval)
    requires Le(x, y) && Le(y, z)
    ensures Le(x, z)
  {
    if ChromLt(x.chrom, y.chrom) && ChromLt(y.chrom, z.chrom) {
      ChromLtTransitive(x.chrom, y.chrom, z.chrom);
    }
  }

  lemma LeTotal(x: Interval, y: Interval)
    ensures Le(x, y) || Le(y, x)
  {
    ChromLtTotal(x.chrom, y.chrom);
  }

  predicate Sorted(s: seq<Interval>) {
    forall i, j :: 0 <= i < j < |s| ==> Le(s[i], s[j])
  }

  /** `x` lies wholly before `y` with at least one base between them, so merge
      keeps them apart. */
  predicate Before(x: Interval, y: Interval) {
    ChromLt(x.chrom, y.chrom) || (x.chrom == y.chrom && x.end < y.start)
  }

  /** Sorted, and no two records overlap or touch: the shape merge produces. */
  predicate Separated(s: seq<Interval>) {
    forall i, j :: 0 <= i < j < |s| ==> Before(s[i], s[j])
  }

  lemma SeparatedIsSorted(s: seq<Interval>)
    requires Separated(s) && Valid(s)
    ensures Sorted(s)
  {
  }

  /** Base `pos` of chromosome `chrom` lies in `x`. */
  predicate Covers(x: Interval, chrom: string, pos: int) {
    x.chrom == chrom && x.start <= pos < x.end
  }

  /** Base `pos` of chromosome `chrom` lies in some record of `s`. */
  predicate Covered(s: seq<Interval>, chrom: string, pos: int) {
    exists x :: x in s && Covers(x, chrom, pos)
  }

  /** The two intervals share at least one base. */
  predicate Overlaps(x: Interval, y: Interval) {
    var lo := if x.start < y.start then y.start else x.start;
    var hi := if x.end < y.end then x.end else y.end;
    x.chrom == y.chrom && lo < hi
  }

  predicate OverlapsAny(x: Interval, s: seq<Interval>) {
    exists j :: 0 <= j < |s| && Overlaps(x, s[j])
  }
}
