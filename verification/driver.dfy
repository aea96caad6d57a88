/** The evaluation driver: `callers_by_event` (which callers report which event
    types in the ensemble set) and the row-producing loops of `_evaluate_multi`.
    The CSV files are replaced by the sequence of rows they would receive. */
module Driver {
  import opened Results
  import opened Strings
  import opened Classify
  import opened Matcher
  import opened SizeBins
  import opened Stats
  import opened Comparator

  /** One line of the summary table. */
  datatype Row = Row(svtype: string, size: SizeBin, caller: string, sensitivity: Stat, precision: Stat)

  /** What every evaluation of one run shares: the ensemble call set, the
      per-caller call sets and the sample's ploidy. */
  datatype Run = Run(ensemble: seq<Feature>, callBeds: map<string, seq<Feature>>, ploidy: int)

  /** The name column of every record. */
  function Names(fs: seq<Feature>): (r: seq<string>)
    ensures |r| == |fs|
    ensures forall i :: 0 <= i < |fs| ==> r[i] == fs[i].name
  {
    seq(|fs|, i requires 0 <= i < |fs| => fs[i].name)
  }

  // ---------------------------------------------------------------------------
  // callers_by_event

  /** `event, caller = x.split("_", 1)` followed by `cnv_to_event(event)`: the
      classified event type and the caller name after the first `_`. */
  function TagPair(tag: string, ploidy: int): (r: Result<(string, string)>)
    ensures '_' !in tag ==> r == Err(MissingUnderscore(tag))
    ensures '_' in tag ==> (r.Ok? <==> CnvToEvent(SplitOnce(tag, '_').value.0, ploidy).Ok?)
    ensures '_' in tag ==> r.Err? ==> r.error == MalformedCopyNumber(SplitOnce(tag, '_').value.0)
    ensures r.Ok? ==> exists event :: && '_' !in event
                                      && tag == event + "_" + r.value.1
                                      && CnvToEvent(event, ploidy) == Ok(r.value.0)
  {
    var halves :- SplitOnce(tag, '_').ToResult(MissingUnderscore(tag));
    var (event, caller) := halves;
    var kind :- CnvToEvent(event, ploidy);
    assert tag == event + "_" + caller;
    Ok((kind, caller))
  }

  /** The comma-separated sub-tags of every label, label by label. */
  function AllTags(labels: seq<string>): seq<string>
    decreases |labels|
  {
    if |labels| == 0 then [] else Split(labels[0], ',') + AllTags(labels[1..])
  }

  /** A tag is scanned exactly when it is a sub-tag of one of the labels. */
  lemma {:induction false} AllTagsMember(labels: seq<string>, t: string)
    ensures t in AllTags(labels) <==>
            exists i :: 0 <= i < |labels| && t in Split(labels[i], ',')
    decreases |labels|
  {
    if |labels| > 0 {
      AllTagsMember(labels[1..], t);
      if t in AllTags(labels[1..]) {
        var i :| 0 <= i < |labels[1..]| && t in Split(labels[1..][i], ',');
        assert labels[i + 1] == labels[1..][i];
      }
      if exists i :: 0 <= i < |labels| && t in Split(labels[i], ',') {
        var i :| 0 <= i < |labels| && t in Split(labels[i], ',');
        if i > 0 {
          assert labels[i] == labels[1..][i - 1];
        }
      }
    }
  }

  /** `(event, caller)` is the parse of some sub-tag of some label. */
  ghost predicate Occurs(labels: seq<string>, pair: (string, string), ploidy: int) {
    exists t :: t in AllTags(labels) && TagPair(t, ploidy) == Ok(pair)
  }

  /** `total_callers[event]` on the defaultdict: a missing key reads as empty. */
  function Lookup(total: map<string, set<string>>, event: string): set<string> {
    if event in total then total[event] else {}
  }

  /** The defaultdict of sets filled by `total_callers[event].add(caller)`. */
  function Collect(pairs: seq<(string, string)>): (r: map<string, set<string>>)
    ensures forall event, caller :: caller in Lookup(r, event) <==> (event, caller) in pairs
    decreases |pairs|
  {
    if |pairs| == 0 then map[]
    else
      var rest := Collect(pairs[1..]);
      var (event, caller) := pairs[0];
      assert pairs == [pairs[0]] + pairs[1..];
      rest[event := Lookup(rest, event) + {caller}]
  }

  /** `callers_by_event` over the ensemble labels: a caller is recorded under an
      event type exactly when some sub-tag names that caller after its first `_`
      and classifies to that type. Fails exactly when some sub-tag lacks `_` or
      carries a malformed copy number; the failure is that of the first such
      sub-tag in label order. */
  function CallersByEvent(labels: seq<string>, ploidy: int): (r: Result<map<string, set<string>>>)
    ensures r.Ok? <==> forall t :: t in AllTags(labels) ==> TagPair(t, ploidy).Ok?
    ensures r.Err? ==> FirstError(AllTags(labels), t => TagPair(t, ploidy), r.error)
    ensures r.Ok? ==> forall event, caller :: caller in Lookup(r.value, event) <==>
                                                Occurs(labels, (event, caller), ploidy)
  {
    var tags := AllTags(labels);
    var parse := t => TagPair(t, ploidy);
    match MapResult(tags, parse)
    case Err(e) => Err(e)
    case Ok(pairs) =>
      MapResultMembers(tags, parse);
      Ok(Collect(pairs))
  }

  // ---------------------------------------------------------------------------
  // _evaluate_multi

  /** A caller evaluated for `svtype`: one with calls of that type, or the ensemble. */
  predicate Active(caller: string, total: map<string, set<string>>, svtype: string) {
    caller in Lookup(total, svtype) || caller == Ensemble
  }

  /** `(x for x in callers if x in total_callers[svtype] or x == "sv-ensemble")`;
      it keeps the callers' order (`Results.FilterAppend`). */
  function SelectCallers(callers: seq<string>, total: map<string, set<string>>, svtype: string)
    : (r: seq<string>)
    ensures forall c :: c in r <==> c in callers && Active(c, total, svtype)
  {
    Filter(callers, c => Active(c, total, svtype))
  }

  /** The `try: call_beds[caller] except KeyError` choice of call set: a caller
      without its own calls may only be the ensemble, which reads the ensemble set. */
  function CallSetFor(caller: string, run: Run): (r: Result<seq<Feature>>)
    ensures r.Err? <==> caller !in run.callBeds && caller != Ensemble
    ensures r.Err? ==> r.error == MissingCallSet(caller)
    ensures caller in run.callBeds ==> r == Ok(run.callBeds[caller])
    ensures caller !in run.callBeds && caller == Ensemble ==> r == Ok(run.ensemble)
  {
    if caller in run.callBeds then Ok(run.callBeds[caller])
    else if caller == Ensemble then Ok(run.ensemble)
    else Err(MissingCallSet(caller))
  }

  /** The body of the innermost loop: one evaluated row, or the failure of
      choosing the call set or of evaluating it. */
  function EvaluateRow(svtype: string, bin: SizeBin, caller: string, truth: seq<Feature>, run: Run)
    : (r: Result<Row>)
    ensures r.Ok? ==> r.value.svtype == svtype && r.value.size == bin && r.value.caller == caller
    ensures r.Ok? <==> && CallSetFor(caller, run).Ok?
                       && EvaluateOne(caller, svtype, bin, CallSetFor(caller, run).value, truth, run.ploidy).Ok?
    ensures CallSetFor(caller, run).Err? ==> r == Err(MissingCallSet(caller))
    ensures CallSetFor(caller, run).Ok? && r.Err? ==>
              r == Err(EvaluateOne(caller, svtype, bin, CallSetFor(caller, run).value, truth, run.ploidy).error)
    ensures r.Ok? ==> EvaluateOne(caller, svtype, bin, CallSetFor(caller, run).value, truth, run.ploidy)
                      == Ok(Evaluation(r.value.sensitivity, r.value.precision))
  {
    var calls :- CallSetFor(caller, run);
    var ev :- EvaluateOne(caller, svtype, bin, calls, truth, run.ploidy);
    Ok(Row(svtype, bin, caller, ev.sensitivity, ev.precision))
  }

  /** The caller loop of one size bin: one row per selected caller, in order,
      stopping at the first caller whose row fails. */
  function EvaluateCallers(svtype: string, bin: SizeBin, selected: seq<string>, truth: seq<Feature>, run: Run)
    : (r: Result<seq<Row>>)
    ensures r.Ok? <==> forall j :: 0 <= j < |selected| ==> EvaluateRow(svtype, bin, selected[j], truth, run).Ok?
    ensures r.Ok? ==> |r.value| == |selected|
    ensures r.Ok? ==> forall j :: 0 <= j < |selected| ==>
                        EvaluateRow(svtype, bin, selected[j], truth, run) == Ok(r.value[j])
    ensures r.Err? ==> FirstError(selected, c => EvaluateRow(svtype, bin, c, truth, run), r.error)
  {
    MapResult(selected, c => EvaluateRow(svtype, bin, c, truth, run))
  }

  /** The size loop of one event type: for each bin in order, each selected
      caller in order, stopping at the first bin whose caller loop fails. */
  function EvaluateBins(svtype: string, bins: seq<SizeBin>, selected: seq<string>, truth: seq<Feature>, run: Run)
    : (r: Result<seq<Row>>)
    ensures r.Ok? <==> forall i, j :: 0 <= i < |bins| && 0 <= j < |selected| ==>
                         EvaluateRow(svtype, bins[i], selected[j], truth, run).Ok?
    ensures r.Err? ==> FirstError(bins, b => EvaluateCallers(svtype, b, selected, truth, run), r.error)
  {
    var r := FlatMapResult(bins, b => EvaluateCallers(svtype, b, selected, truth, run));
    assert r.Ok? <==> forall i :: 0 <= i < |bins| ==> EvaluateCallers(svtype, bins[i], selected, truth, run).Ok?;
    r
  }

  /** An event type has one row per (bin, caller) combination, bins outermost:
      row `i * |selected| + j` is caller `j` evaluated on bin `i`. */
  lemma EvaluateBinsRows(svtype: string, bins: seq<SizeBin>, selected: seq<string>,
                         truth: seq<Feature>, run: Run, i: nat, j: nat)
    requires EvaluateBins(svtype, bins, selected, truth, run).Ok?
    requires i < |bins| && j < |selected|
    ensures |EvaluateBins(svtype, bins, selected, truth, run).value| == |bins| * |selected|
    ensures i * |selected| + j < |bins| * |selected|
    ensures Slot(i, j, |selected|) < |EvaluateBins(svtype, bins, selected, truth, run).value|
    ensures EvaluateRow(svtype, bins[i], selected[j], truth, run)
            == Ok(EvaluateBins(svtype, bins, selected, truth, run).value[Slot(i, j, |selected|)])
  {
    var block := b => EvaluateCallers(svtype, b, selected, truth, run);
    FlatMapLength(bins, block, |selected|);
    FlatMapIndex(bins, block, |selected|, i, j);
    SlotBound(i, j, |bins|, |selected|);
  }

  /** Every row of an event type names it, one of the bins and a selected caller. */
  lemma EvaluateBinsFields(svtype: string, bins: seq<SizeBin>, selected: seq<string>,
                           truth: seq<Feature>, run: Run)
    requires EvaluateBins(svtype, bins, selected, truth, run).Ok?
    ensures forall row :: row in EvaluateBins(svtype, bins, selected, truth, run).value ==>
              row.svtype == svtype && row.size in bins && row.caller in selected
  {
    var block := b => EvaluateCallers(svtype, b, selected, truth, run);
    var fits := (b: SizeBin, row: Row) => row.svtype == svtype && row.size == b && row.caller in selected;
    forall i, row | 0 <= i < |bins| && block(bins[i]).Ok? && row in block(bins[i]).value
      ensures fits(bins[i], row)
    {
      var rows := block(bins[i]).value;
      var j :| 0 <= j < |rows| && rows[j] == row;
      assert EvaluateRow(svtype, bins[i], selected[j], truth, run) == Ok(row);
    }
    FlatMapAll(bins, block, fits);
  }

  /** The rows of one truth set: all size bins, the callers active for its type. */
  function TypeRows(callers: seq<string>, total: map<string, set<string>>, run: Run,
                    truthSet: (string, seq<Feature>)): Result<seq<Row>> {
    EvaluateBins(truthSet.0, EventSizes, SelectCallers(callers, total, truthSet.0), truthSet.1, run)
  }

  /** A row fits the table: a size bin of `EventSizes` and a listed caller that
      is active for the row's event type. */
  predicate Fits(row: Row, callers: seq<string>, total: map<string, set<string>>) {
    row.size in EventSizes && row.caller in callers && Active(row.caller, total, row.svtype)
  }

  lemma TypeRowsFields(callers: seq<string>, total: map<string, set<string>>, run: Run,
                       truthSet: (string, seq<Feature>))
    requires TypeRows(callers, total, run, truthSet).Ok?
    ensures forall row :: row in TypeRows(callers, total, run, truthSet).value ==>
              row.svtype == truthSet.0 && Fits(row, callers, total)
  {
    EvaluateBinsFields(truthSet.0, EventSizes, SelectCallers(callers, total, truthSet.0), truthSet.1, run);
  }

  /** Every bin and every selected caller has its row. */
  lemma EvaluateBinsComplete(svtype: string, bins: seq<SizeBin>, selected: seq<string>,
                             truth: seq<Feature>, run: Run, i: nat, caller: string)
    requires EvaluateBins(svtype, bins, selected, truth, run).Ok?
    requires i < |bins| && caller in selected
    ensures EvaluateRow(svtype, bins[i], caller, truth, run).Ok?
    ensures EvaluateRow(svtype, bins[i], caller, truth, run).value
            in EvaluateBins(svtype, bins, selected, truth, run).value
  {
    var block := b => EvaluateCallers(svtype, b, selected, truth, run);
    assert block(bins[i]).Ok?;
    var j :| 0 <= j < |selected| && selected[j] == caller;
    var row := EvaluateRow(svtype, bins[i], caller, truth, run).value;
    assert block(bins[i]).value[j] == row;
    FlatMapMember(bins, block, i, row);
  }

  lemma TypeRowsComplete(callers: seq<string>, total: map<string, set<string>>, run: Run,
                         truthSet: (string, seq<Feature>), i: nat, caller: string)
    requires TypeRows(callers, total, run, truthSet).Ok?
    requires i < |EventSizes|
    requires caller in callers && Active(caller, total, truthSet.0)
    ensures EvaluateRow(truthSet.0, EventSizes[i], caller, truthSet.1, run).Ok?
    ensures EvaluateRow(truthSet.0, EventSizes[i], caller, truthSet.1, run).value
            in TypeRows(callers, total, run, truthSet).value
  {
    var selected := SelectCallers(callers, total, truthSet.0);
    assert caller in selected;
    EvaluateBinsComplete(truthSet.0, EventSizes, selected, truthSet.1, run, i, caller);
  }

  /** The outer loop over the truth sets, in their order, stopping at the first
      truth set whose rows fail. Every row names a truth event type, a size bin
      and a listed caller active for that type. */
  function EvaluateTypes(callers: seq<string>, truthSets: seq<(string, seq<Feature>)>,
                         total: map<string, set<string>>, run: Run)
    : (r: Result<seq<Row>>)
    ensures r.Ok? <==> forall k :: 0 <= k < |truthSets| ==> TypeRows(callers, total, run, truthSets[k]).Ok?
    ensures r.Err? ==> FirstError(truthSets, ts => TypeRows(callers, total, run, ts), r.error)
    ensures r.Ok? ==> forall row :: row in r.value ==>
                        && (exists k :: 0 <= k < |truthSets| && truthSets[k].0 == row.svtype)
                        && Fits(row, callers, total)
  {
    var r := FlatMapResult(truthSets, ts => TypeRows(callers, total, run, ts));
    if r.Ok? then
      FlatMapFits(callers, truthSets, total, run);
      r
    else
      r
  }

  /** The outer loop's rows fit the table and name one of the truth types. */
  lemma FlatMapFits(callers: seq<string>, truthSets: seq<(string, seq<Feature>)>,
                    total: map<string, set<string>>, run: Run)
    requires FlatMapResult(truthSets, ts => TypeRows(callers, total, run, ts)).Ok?
    ensures forall row :: row in FlatMapResult(truthSets, ts => TypeRows(callers, total, run, ts)).value ==>
              && (exists k :: 0 <= k < |truthSets| && truthSets[k].0 == row.svtype)
              && Fits(row, callers, total)
  {
    var block := ts => TypeRows(callers, total, run, ts);
    var fits := (ts: (string, seq<Feature>), row: Row) => row.svtype == ts.0 && Fits(row, callers, total);
    forall i, row | 0 <= i < |truthSets| && block(truthSets[i]).Ok? && row in block(truthSets[i]).value
      ensures fits(truthSets[i], row)
    {
      TypeRowsFields(callers, total, run, truthSets[i]);
    }
    FlatMapAll(truthSets, block, fits);
  }

  /** Conversely, every (truth set, size bin, active caller) combination has its
      row, evaluated from exactly those inputs. */
  lemma EvaluateTypesComplete(callers: seq<string>, truthSets: seq<(string, seq<Feature>)>,
                              total: map<string, set<string>>, run: Run, k: nat, i: nat, caller: string)
    requires EvaluateTypes(callers, truthSets, total, run).Ok?
    requires k < |truthSets| && i < |EventSizes|
    requires caller in callers && Active(caller, total, truthSets[k].0)
    ensures EvaluateRow(truthSets[k].0, EventSizes[i], caller, truthSets[k].1, run).Ok?
    ensures EvaluateRow(truthSets[k].0, EventSizes[i], caller, truthSets[k].1, run).value
            in EvaluateTypes(callers, truthSets, total, run).value
  {
    var block := ts => TypeRows(callers, total, run, ts);
    assert TypeRows(callers, total, run, truthSets[k]).Ok?;
    TypeRowsComplete(callers, total, run, truthSets[k], i, caller);
    var row := EvaluateRow(truthSets[k].0, EventSizes[i], caller, truthSets[k].1, run).value;
    FlatMapMember(truthSets, block, k, row);
  }

  /** The truth sets are processed in order: the rows of a concatenation are the
      rows of the first part followed by those of the second. */
  lemma EvaluateTypesAppend(callers: seq<string>, a: seq<(string, seq<Feature>)>, b: seq<(string, seq<Feature>)>,
                            total: map<string, set<string>>, run: Run)
    ensures EvaluateTypes(callers, a + b, total, run).Ok? <==>
            EvaluateTypes(callers, a, total, run).Ok? && EvaluateTypes(callers, b, total, run).Ok?
    ensures EvaluateTypes(callers, a + b, total, run).Ok? ==>
              EvaluateTypes(callers, a + b, total, run).value
              == EvaluateTypes(callers, a, total, run).value + EvaluateTypes(callers, b, total, run).value
  {
    FlatMapAppend(a, b, ts => TypeRows(callers, total, run, ts));
  }

  /** One truth set contributes exactly its own rows. */
  lemma EvaluateTypesSingle(callers: seq<string>, truthSet: (string, seq<Feature>),
                            total: map<string, set<string>>, run: Run)
    ensures EvaluateTypes(callers, [truthSet], total, run) == TypeRows(callers, total, run, truthSet)
  {
    FlatMapSingle(truthSet, ts => TypeRows(callers, total, run, ts));
  }

  /** `_evaluate_multi` without its files: for each truth set in order, each size
      bin in order and each active caller in order, one row. Every row names a
      truth event type, a size bin of `EventSizes` and a listed caller that either
      reports that event type in the ensemble set or is the ensemble. */
  function EvaluateMulti(callers: seq<string>, truthSets: seq<(string, seq<Feature>)>, run: Run)
    : (r: Result<seq<Row>>)
    ensures r.Ok? <==> && CallersByEvent(Names(run.ensemble), run.ploidy).Ok?
                       && EvaluateTypes(callers, truthSets, CallersByEvent(Names(run.ensemble), run.ploidy).value, run).Ok?
    ensures CallersByEvent(Names(run.ensemble), run.ploidy).Err? ==>
              r == Err(CallersByEvent(Names(run.ensemble), run.ploidy).error)
    ensures r.Ok? ==> r.value == EvaluateTypes(callers, truthSets, CallersByEvent(Names(run.ensemble), run.ploidy).value, run).value
    ensures CallersByEvent(Names(run.ensemble), run.ploidy).Ok? ==>
              r == EvaluateTypes(callers, truthSets, CallersByEvent(Names(run.ensemble), run.ploidy).value, run)
    ensures r.Ok? ==> forall row :: row in r.value ==>
                        && (exists k :: 0 <= k < |truthSets| && truthSets[k].0 == row.svtype)
                        && row.size in EventSizes
                        && row.caller in callers
                        && (row.caller == Ensemble
                            || Occurs(Names(run.ensemble), (row.svtype, row.caller), run.ploidy))
    ensures r.Ok? ==> forall k, i, caller ::
                        && 0 <= k < |truthSets| && 0 <= i < |EventSizes| && caller in callers
                        && (caller == Ensemble || Occurs(Names(run.ensemble), (truthSets[k].0, caller), run.ploidy))
                        ==> && EvaluateRow(truthSets[k].0, EventSizes[i], caller, truthSets[k].1, run).Ok?
                            && EvaluateRow(truthSets[k].0, EventSizes[i], caller, truthSets[k].1, run).value in r.value
  {
    var total :- CallersByEvent(Names(run.ensemble), run.ploidy);
    EvaluateTypesLabels(callers, truthSets, Names(run.ensemble), total, run);
    EvaluateTypes(callers, truthSets, total, run)
  }

  /** With the callers collected from the ensemble labels, "active" reads as
      "the ensemble, or named under the type by some label": every row is of
      that kind, and every such combination has its row. */
  lemma EvaluateTypesLabels(callers: seq<string>, truthSets: seq<(string, seq<Feature>)>,
                            labels: seq<string>, total: map<string, set<string>>, run: Run)
    requires CallersByEvent(labels, run.ploidy) == Ok(total)
    ensures var r := EvaluateTypes(callers, truthSets, total, run);
            r.Ok? ==> forall row :: row in r.value ==>
                        && (exists k :: 0 <= k < |truthSets| && truthSets[k].0 == row.svtype)
                        && row.size in EventSizes
                        && row.caller in callers
                        && (row.caller == Ensemble || Occurs(labels, (row.svtype, row.caller), run.ploidy))
    ensures var r := EvaluateTypes(callers, truthSets, total, run);
            r.Ok? ==> forall k, i, caller ::
                        && 0 <= k < |truthSets| && 0 <= i < |EventSizes| && caller in callers
                        && (caller == Ensemble || Occurs(labels, (truthSets[k].0, caller), run.ploidy))
                        ==> && EvaluateRow(truthSets[k].0, EventSizes[i], caller, truthSets[k].1, run).Ok?
                            && EvaluateRow(truthSets[k].0, EventSizes[i], caller, truthSets[k].1, run).value in r.value
  {
    EvaluateTypesCompleteAll(callers, truthSets, total, run);
  }

  /** `EvaluateTypesComplete` for every combination at once. */
  lemma EvaluateTypesCompleteAll(callers: seq<string>, truthSets: seq<(string, seq<Feature>)>,
                                 total: map<string, set<string>>, run: Run)
    ensures var r := EvaluateTypes(callers, truthSets, total, run);
            r.Ok? ==> forall k, i, caller ::
                        && 0 <= k < |truthSets| && 0 <= i < |EventSizes| && caller in callers
                        && Active(caller, total, truthSets[k].0)
                        ==> && EvaluateRow(truthSets[k].0, EventSizes[i], caller, truthSets[k].1, run).Ok?
                            && EvaluateRow(truthSets[k].0, EventSizes[i], caller, truthSets[k].1, run).value in r.value
  {
    if EvaluateTypes(callers, truthSets, total, run).Ok? {
      forall k, i, caller | && 0 <= k < |truthSets| && 0 <= i < |EventSizes| && caller in callers
                            && Active(caller, total, truthSets[k].0)
        ensures EvaluateRow(truthSets[k].0, EventSizes[i], caller, truthSets[k].1, run).Ok?
        ensures EvaluateRow(truthSets[k].0, EventSizes[i], caller, truthSets[k].1, run).value
                in EvaluateTypes(callers, truthSets, total, run).value
      {
        EvaluateTypesComplete(callers, truthSets, total, run, k, i, caller);
      }
    }
  }
}
