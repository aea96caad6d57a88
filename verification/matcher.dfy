/** The nested predicates of `_evaluate_one` that decide whether a BED label
    (comma-separated `TYPE_caller` sub-tags) counts as a call of a given event
    type by a given caller. Every predicate is evaluated in the source's
    short-circuit order, so a sub-tag fails exactly when Python would raise. */
module Matcher {
  import opened Results
  import opened Strings
  import opened Classify

  /** The aggregate caller name: it accepts every caller's sub-tags. */
  const Ensemble: string := "sv-ensemble"

  /** `name.split("_")`. */
  function Components(name: string): seq<string> {
    Split(name, '_')
  }

  /** The `allowed` table of `wham_matches`. */
  const WhamAllowed: map<string, set<string>> :=
    map["DEL" := {"DEL", "UKN"}, "DUP" := {"DUP"}, "INV" := {"INV"}]

  /** WHAM's reported type `kind` counts for `svtype`: its unknown-type calls
      count as deletions, otherwise only the same type counts. */
  predicate WhamLenient(svtype: string, kind: string) {
    || (svtype == "DEL" && (kind == "DEL" || kind == "UKN"))
    || (svtype == "DUP" && kind == "DUP")
    || (svtype == "INV" && kind == "INV")
  }

  /** `wham_matches`: the second `_`-component must be exactly `wham`; the unpack
      of the first two components fails on a tag without `_`. */
  function WhamMatches(name: string, svtype: string): (r: Result<bool>)
    ensures r.Err? <==> '_' !in name
    ensures r.Err? ==> r.error == MissingUnderscore(name)
    ensures r.Ok? ==> |Components(name)| >= 2
    ensures r.Ok? ==> (r.value <==> Components(name)[1] == "wham"
                                     && WhamLenient(svtype, Components(name)[0]))
    ensures r.Ok? && svtype != "DEL" && svtype != "DUP" && svtype != "INV" ==> !r.value
  {
    var parts := Components(name);
    if |parts| < 2 then Err(MissingUnderscore(name))
    else Ok(parts[1] == "wham" && svtype in WhamAllowed && parts[0] in WhamAllowed[svtype])
  }

  /** The caller half of the test: the ensemble accepts everything, any other
      caller needs the sub-tag to end with its name (a literal suffix test). */
  predicate CallerMatches(name: string, caller: string) {
    caller == Ensemble || EndsWith(name, caller)
  }

  /** The type half of the test, as a plain disjunction. */
  ghost predicate TypeMatches(name: string, svtype: string, ploidy: int) {
    || StartsWith(name, svtype)
    || CnvToEvent(name, ploidy) == Ok(svtype)
    || ('_' in name && Components(name)[1] == "wham" && WhamLenient(svtype, Components(name)[0]))
    || StartsWith(name, "BND")
  }

  /** One sub-tag of `is_caller_svtype`: `(startswith(svtype) or cnv_matches or
      wham_matches or is_breakend) and (ensemble or endswith(caller))`. */
  function SubtagHit(name: string, caller: string, svtype: string, ploidy: int): (r: Result<bool>)
    ensures r.Ok? ==> (r.value <==> TypeMatches(name, svtype, ploidy) && CallerMatches(name, caller))
    ensures r.Err? <==> && !StartsWith(name, svtype)
                        && (|| CnvToEvent(name, ploidy).Err?
                            || (CnvToEvent(name, ploidy) != Ok(svtype) && '_' !in name))
  {
    if StartsWith(name, svtype) then Ok(CallerMatches(name, caller))
    else
      var kind :- CnvToEvent(name, ploidy);
      if kind == svtype then Ok(CallerMatches(name, caller))
      else
        var wham :- WhamMatches(name, svtype);
        if wham || StartsWith(name, "BND") then Ok(CallerMatches(name, caller))
        else Ok(false)
  }

  /** The loop of `is_caller_svtype` over the sub-tags: the first hit answers
      true, a sub-tag that raises before any hit makes the whole test raise. */
  function AnyHit(names: seq<string>, caller: string, svtype: string, ploidy: int): (r: Result<bool>)
    ensures r.Ok? ==> (r.value <==> exists i :: 0 <= i < |names| && SubtagHit(names[i], caller, svtype, ploidy) == Ok(true))
    ensures r.Err? <==> exists i :: && 0 <= i < |names|
                                    && SubtagHit(names[i], caller, svtype, ploidy).Err?
                                    && forall j :: 0 <= j < i ==> SubtagHit(names[j], caller, svtype, ploidy) == Ok(false)
    ensures r.Err? ==> exists i :: && 0 <= i < |names| && SubtagHit(names[i], caller, svtype, ploidy) == Err(r.error)
                                   && forall j :: 0 <= j < i ==> SubtagHit(names[j], caller, svtype, ploidy) == Ok(false)
  {
    AnyResult(names, n => SubtagHit(n, caller, svtype, ploidy))
  }

  /** `is_caller_svtype` on a feature's label: the label matches when one of its
      comma-separated sub-tags does, scanning stops at the first sub-tag that
      raises, and a label without a comma is judged as a single sub-tag. */
  function IsCallerSvtype(tags: string, caller: string, svtype: string, ploidy: int): (r: Result<bool>)
    ensures var subtags := Split(tags, ',');
            r.Ok? ==> (r.value <==> exists i :: 0 <= i < |subtags| && SubtagHit(subtags[i], caller, svtype, ploidy) == Ok(true))
    ensures var subtags := Split(tags, ',');
            r.Err? <==> exists i :: && 0 <= i < |subtags|
                                    && SubtagHit(subtags[i], caller, svtype, ploidy).Err?
                                    && forall j :: 0 <= j < i ==> SubtagHit(subtags[j], caller, svtype, ploidy) == Ok(false)
    ensures var subtags := Split(tags, ',');
            r.Err? ==> exists i :: && 0 <= i < |subtags| && SubtagHit(subtags[i], caller, svtype, ploidy) == Err(r.error)
                                   && forall j :: 0 <= j < i ==> SubtagHit(subtags[j], caller, svtype, ploidy) == Ok(false)
    ensures ',' !in tags ==> r == SubtagHit(tags, caller, svtype, ploidy)
  {
    var subtags := Split(tags, ',');
    var r := AnyHit(subtags, caller, svtype, ploidy);
    assert ',' !in tags ==> r == SubtagHit(tags, caller, svtype, ploidy) by {
      if ',' !in tags {
        SplitNoSeparator(tags, ',');
        assert subtags[0] == tags && |subtags| == 1;
        if SubtagHit(tags, caller, svtype, ploidy).Ok? {
          assert r.Ok?;
        } else {
          assert r.Err?;
        }
      }
    }
    r
  }

  /** A WHAM sub-tag `<kind>_wham` counts for exactly the event types its kind is
      lenient for: an unknown-type (`UKN`) call counts as a deletion and as nothing
      else, and no type outside DEL, DUP and INV ever matches this way. */
  lemma {:induction false} WhamTagMatches(kind: string, svtype: string, ploidy: int)
    requires '_' !in kind
    requires !StartsWith(kind + "_wham", svtype)
    requires !StartsWith(kind + "_wham", "cnv") && !StartsWith(kind + "_wham", "BND")
    ensures SubtagHit(kind + "_wham", "wham", svtype, ploidy) == Ok(WhamLenient(svtype, kind))
  {
    var name := kind + "_wham";
    WhamTagShape(kind);
    assert name != svtype by {
      assert name[..|name|] == name;
    }
    assert CnvToEvent(name, ploidy) == Ok(name);
    var hit := SubtagHit(name, "wham", svtype, ploidy);
    assert hit.Ok?;
    assert TypeMatches(name, svtype, ploidy) == WhamLenient(svtype, kind);
  }

  /** The `_`-components and the suffix of a WHAM sub-tag. */
  lemma WhamTagShape(kind: string)
    requires '_' !in kind
    ensures Components(kind + "_wham") == [kind, "wham"]
    ensures '_' in kind + "_wham"
    ensures EndsWith(kind + "_wham", "wham")
  {
    var name := kind + "_wham";
    assert name == kind + ['_'] + "wham";
    SplitAfterSeparator(kind, '_', "wham");
    SplitNoSeparator("wham", '_');
    assert name[|kind|] == '_';
    assert name[|name| - 4..] == "wham";
  }

  /** A breakend sub-tag counts for every event type, subject only to the caller test. */
  lemma BreakendMatchesAnyType(name: string, caller: string, svtype: string, ploidy: int)
    requires StartsWith(name, "BND") && '_' in name
    ensures SubtagHit(name, caller, svtype, ploidy) == Ok(CallerMatches(name, caller))
  {
    assert !StartsWith(name, "cnv") by {
      assert name[0] == 'B';
    }
  }
}
