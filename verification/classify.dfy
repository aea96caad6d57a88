/** `cnv_to_event`: resolving a copy-number tag `cnvN[;M...]_caller` to an event
    type by comparing its largest copy number with the sample's ploidy. */
module Classify {
  import opened Results
  import opened Strings

  /** The text between `cnv` and the first `_`: the `_`-free head of the tag
      with every `cnv` removed, as `split("_")[0].replace("cnv", "")` does. */
  function CopyNumberField(name: string): string {
    RemoveAll(Split(name, '_')[0], "cnv")
  }

  /** `int(x)` for every part, failing if any part is not an integer. */
  function ParseAll(parts: seq<string>): (r: Option<seq<int>>)
    ensures r.Some? <==> forall i :: 0 <= i < |parts| ==> ParseInt(parts[i]).Some?
    ensures r.Some? ==> |r.value| == |parts|
                        && forall i :: 0 <= i < |parts| ==> ParseInt(parts[i]) == Some(r.value[i])
    decreases |parts|
  {
    if |parts| == 0 then Some([])
    else
      match ParseInt(parts[0])
      case None => None
      case Some(n) =>
        match ParseAll(parts[1..])
        case None =>
          assert forall i :: 1 <= i < |parts| ==> parts[1..][i - 1] == parts[i];
          None
        case Some(ns) => Some([n] + ns)
  }

  /** The `;`-separated copy numbers of a `cnv` tag, or `None` if one is not an integer. */
  function CopyNumbers(name: string): (r: Option<seq<int>>)
    ensures r.Some? ==> |r.value| >= 1
  {
    ParseAll(Split(CopyNumberField(name), ';'))
  }

  /** Python's `max` of a non-empty list. */
  function Max(xs: seq<int>): (m: int)
    requires |xs| > 0
    ensures m in xs
    ensures forall i :: 0 <= i < |xs| ==> xs[i] <= m
    decreases |xs|
  {
    if |xs| == 1 then xs[0]
    else
      var rest := Max(xs[1..]);
      assert forall i :: 1 <= i < |xs| ==> xs[i] == xs[1..][i - 1];
      if xs[0] >= rest then xs[0] else rest
  }

  predicate AllBelow(xs: seq<int>, ploidy: int) {
    forall i :: 0 <= i < |xs| ==> xs[i] < ploidy
  }

  predicate SomeAbove(xs: seq<int>, ploidy: int) {
    exists i :: 0 <= i < |xs| && xs[i] > ploidy
  }

  /** `cnv_to_event(name, data)` with the ploidy passed in: a tag starting with
      `cnv` becomes `DEL` when every copy number is below the ploidy, `DUP` when
      some copy number is above it, and stays as it is otherwise; any other tag
      is returned unchanged. A copy number that is not an integer is an error. */
  function CnvToEvent(name: string, ploidy: int): (r: Result<string>)
    ensures !StartsWith(name, "cnv") ==> r == Ok(name)
    ensures StartsWith(name, "cnv") ==> (r.Err? <==> CopyNumbers(name).None?)
    ensures StartsWith(name, "cnv") && CopyNumbers(name).Some? ==>
              var ns := CopyNumbers(name).value;
              && (AllBelow(ns, ploidy) ==> r == Ok("DEL"))
              && (SomeAbove(ns, ploidy) ==> r == Ok("DUP"))
              && (!AllBelow(ns, ploidy) && !SomeAbove(ns, ploidy) ==> r == Ok(name))
    ensures r.Err? ==> r.error == MalformedCopyNumber(name)
  {
    if StartsWith(name, "cnv") then
      match CopyNumbers(name)
      case None => Err(MalformedCopyNumber(name))
      case Some(ns) =>
        var num := Max(ns);
        if num < ploidy then Ok("DEL")
        else if num > ploidy then Ok("DUP")
        else Ok(name)
    else Ok(name)
  }

  /** A tag written `cnv<n>_<rest>` (one copy number, printed in decimal) classifies
      by comparing `n` with the ploidy alone. */
  lemma SingleCopyNumber(n: nat, rest: string, ploidy: int)
    ensures var name := "cnv" + ShowNat(n) + "_" + rest;
            && (n < ploidy ==> CnvToEvent(name, ploidy) == Ok("DEL"))
            && (n > ploidy ==> CnvToEvent(name, ploidy) == Ok("DUP"))
            && (n == ploidy ==> CnvToEvent(name, ploidy) == Ok(name))
  {
    var name := "cnv" + ShowNat(n) + "_" + rest;
    assert Join(ShowAll([n]), ';') == ShowNat(n);
    CopyNumbersRoundTrip([n], rest);
    assert StartsWith(name, "cnv");
  }

  /** `str(n)` of every copy number. */
  function ShowAll(ns: seq<nat>): (r: seq<string>)
    ensures |r| == |ns|
    ensures forall i :: 0 <= i < |ns| ==> r[i] == ShowNat(ns[i])
  {
    seq(|ns|, i requires 0 <= i < |ns| => ShowNat(ns[i]))
  }

  /** The copy-number field of `cnv<field>_<rest>` is `field` itself when it
      holds neither `_` nor a `c` that could start another `cnv`. */
  lemma FieldOf(field: string, rest: string)
    requires '_' !in field && 'c' !in field
    ensures CopyNumberField("cnv" + field + "_" + rest) == field
  {
    var head := "cnv" + field;
    var name := head + "_" + rest;
    assert '_' !in head;
    assert name == head + ['_'] + rest;
    SplitAfterSeparator(head, '_', rest);
    assert Split(name, '_')[0] == head;
    assert StartsWith(head, "cnv");
    assert head[3..] == field;
  }

  /** Every printed copy number parses back to itself. */
  lemma ParseShowAll(ns: seq<nat>)
    ensures ParseAll(ShowAll(ns)) == Some(ns)
  {
    var parts := ShowAll(ns);
    forall i | 0 <= i < |parts|
      ensures ParseInt(parts[i]) == Some(ns[i] as int)
    {
      ParseShow(ns[i]);
    }
    var r := ParseAll(parts);
    assert r.Some? && |r.value| == |ns|;
    assert forall i :: 0 <= i < |ns| ==> r.value[i] == ns[i];
    assert r.value == ns;
  }

  /** Printing copy numbers into a tag `cnv<n1>;<n2>;..._<rest>` and reading
      them back gives the same copy numbers, in order. */
  lemma CopyNumbersRoundTrip(ns: seq<nat>, rest: string)
    requires |ns| >= 1
    ensures CopyNumbers("cnv" + Join(ShowAll(ns), ';') + "_" + rest) == Some(ns)
  {
    var parts := ShowAll(ns);
    forall i | 0 <= i < |parts|
      ensures '_' !in parts[i] && 'c' !in parts[i] && ';' !in parts[i]
    {
      assert forall j :: 0 <= j < |parts[i]| ==> IsDigit(parts[i][j]);
    }
    JoinAvoids(parts, ';', '_');
    JoinAvoids(parts, ';', 'c');
    FieldOf(Join(parts, ';'), rest);
    SplitJoin(parts, ';');
    ParseShowAll(ns);
  }
}
