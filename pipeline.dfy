/**
 * `run_pipeline`: the loaded table goes through the two preprocessing stages,
 * is split by the four rules into good (label 1) and bad (label 0) snippets,
 * the good ones pass the isolation-forest and local-outlier-factor filters,
 * and the rows each filter removed are collected with the bad ones. Both
 * collections are stored and appended, in chunks of 1000 records, to JSON
 * Lines files.
 */
module Pipeline {
  import opened Wrappers
  import opened Frames
  import opened Preprocessing
  import opened MlValidation
  import opened Streams

  // ---------------------------------------------------------------------
  // Rule-based split

  /** `bad_conditions`, for one row of the stage 2 table. */
  predicate IsBad(e: Enriched, minLen: int) {
    e.metrics.contentLength < minLen
    || e.metrics.isSyntaxError
    || e.metrics.cyclomaticComplexity > 50
    || e.metrics.maintainabilityIndex < 20.0
  }

  /** The `label` column set to one value on every row. */
  function WithLabel(rows: seq<Row<Enriched>>, classLabel: int): (r: seq<Row<Labelled>>)
    ensures |r| == |rows|
    ensures forall i :: 0 <= i < |rows| ==> r[i] == Row(rows[i].index, Labelled(rows[i].rec, classLabel))
  {
    seq(|rows|, i requires 0 <= i < |rows| => Row(rows[i].index, Labelled(rows[i].rec, classLabel)))
  }

  /** The rows without their `label` column. */
  function Unlabelled(rows: seq<Row<Labelled>>): (r: seq<Row<Enriched>>)
    ensures |r| == |rows|
    ensures forall i :: 0 <= i < |rows| ==> r[i] == Row(rows[i].index, rows[i].rec.e)
  {
    seq(|rows|, i requires 0 <= i < |rows| => Row(rows[i].index, rows[i].rec.e))
  }

  /** `good_data`: the rows no rule flags, with their stage 2 labels, `label` = 1. */
  function GoodData(rows: seq<Row<Enriched>>, minLen: int): seq<Row<Labelled>> {
    WithLabel(Where(rows, e => !IsBad(e, minLen)), 1)
  }

  /** `bad_data`: the rows some rule flags, with their stage 2 labels, `label` = 0. */
  function BadData(rows: seq<Row<Enriched>>, minLen: int): seq<Row<Labelled>> {
    WithLabel(Where(rows, e => IsBad(e, minLen)), 0)
  }

  lemma UnlabelledWithLabel(rows: seq<Row<Enriched>>, classLabel: int)
    ensures Unlabelled(WithLabel(rows, classLabel)) == rows
  {
  }

  /** Every row is rule-good and labelled 1. */
  predicate AllGood(rows: seq<Row<Labelled>>, minLen: int) {
    forall x :: x in rows ==> x.rec.classLabel == 1 && !IsBad(x.rec.e, minLen)
  }

  /** Every row is rule-bad and labelled 0. */
  predicate AllBad(rows: seq<Row<Labelled>>, minLen: int) {
    forall x :: x in rows ==> x.rec.classLabel == 0 && IsBad(x.rec.e, minLen)
  }

  /** The labels agree with the rules. */
  lemma RuleSplitLabels(rows: seq<Row<Enriched>>, minLen: int)
    ensures AllGood(GoodData(rows, minLen), minLen)
    ensures AllBad(BadData(rows, minLen), minLen)
  {
    var good := Where(rows, e => !IsBad(e, minLen));
    var bad := Where(rows, e => IsBad(e, minLen));
    forall x | x in GoodData(rows, minLen) ensures x.rec.classLabel == 1 && !IsBad(x.rec.e, minLen) {
      var i :| 0 <= i < |good| && x == GoodData(rows, minLen)[i];
      assert good[i] in good;
    }
    forall x | x in BadData(rows, minLen) ensures x.rec.classLabel == 0 && IsBad(x.rec.e, minLen) {
      var i :| 0 <= i < |bad| && x == BadData(rows, minLen)[i];
      assert bad[i] in bad;
    }
  }

  /** The rules split the table: every row lands in exactly one of the two parts. */
  lemma RuleSplitPartition(rows: seq<Row<Enriched>>, minLen: int)
    ensures multiset(Unlabelled(GoodData(rows, minLen))) + multiset(Unlabelled(BadData(rows, minLen))) == multiset(rows)
  {
    UnlabelledWithLabel(Where(rows, e => !IsBad(e, minLen)), 1);
    UnlabelledWithLabel(Where(rows, e => IsBad(e, minLen)), 0);
    WherePartition(rows, e => IsBad(e, minLen), e => !IsBad(e, minLen));
  }

  /** Both parts keep the table's order. */
  lemma RuleSplitOrder(rows: seq<Row<Enriched>>, minLen: int)
    ensures IsSubseq(Unlabelled(GoodData(rows, minLen)), rows) && IsSubseq(Unlabelled(BadData(rows, minLen)), rows)
  {
    UnlabelledWithLabel(Where(rows, e => !IsBad(e, minLen)), 1);
    UnlabelledWithLabel(Where(rows, e => IsBad(e, minLen)), 0);
  }

  /**
   * On the stage 2 table the length rule never decides: stage 2 already
   * dropped every row shorter than the floor.
   */
  lemma LengthRuleRedundant(rows: seq<Row<Base>>, minLen: int, an: Analysers)
    ensures var df := PreprocessRule2(rows, minLen, an);
      forall i :: 0 <= i < |df| ==>
        (IsBad(df[i].rec, minLen) <==>
          df[i].rec.metrics.isSyntaxError || df[i].rec.metrics.cyclomaticComplexity > 50
          || df[i].rec.metrics.maintainabilityIndex < 20.0)
  {
    PreprocessRule2Measured(rows, minLen, an);
  }

  // ---------------------------------------------------------------------
  // The outlier filters and what they removed, as written

  /** `df.drop(columns=[...])` of both anomaly columns, each only if present. */
  function StripAnomalyColumns(rows: seq<Row<Labelled>>): (r: seq<Row<Labelled>>)
    ensures |r| == |rows|
    ensures forall i :: 0 <= i < |r| ==> r[i].index == rows[i].index && SameSnippet(r[i].rec, rows[i].rec)
    ensures forall i :: 0 <= i < |r| ==> r[i].rec.e.base.extra == rows[i].rec.e.base.extra - {"anomaly_iso", "anomaly_lof"}
  {
    DropColumn(DropColumn(rows, "anomaly_iso"), "anomaly_lof")
  }

  /** `bad_data_cleaned`: the three tables one after the other, relabelled, without anomaly columns. */
  function BadDataCleaned(bad: seq<Row<Labelled>>, isoRemoved: seq<Row<Labelled>>, lofRemoved: seq<Row<Labelled>>): (r: seq<Row<Labelled>>)
    ensures |r| == |bad| + |isoRemoved| + |lofRemoved|
    ensures IndexedFromZero(r)
  {
    StripAnomalyColumns(Reindexed(bad + isoRemoved + lofRemoved))
  }

  lemma BadDataCleanedParts(bad: seq<Row<Labelled>>, isoRemoved: seq<Row<Labelled>>, lofRemoved: seq<Row<Labelled>>)
    ensures var r := BadDataCleaned(bad, isoRemoved, lofRemoved);
      && (forall i :: 0 <= i < |bad| ==> SameSnippet(r[i].rec, bad[i].rec))
      && (forall i :: 0 <= i < |isoRemoved| ==> SameSnippet(r[|bad| + i].rec, isoRemoved[i].rec))
      && (forall i :: 0 <= i < |lofRemoved| ==> SameSnippet(r[|bad| + |isoRemoved| + i].rec, lofRemoved[i].rec))
  {
    var all := bad + isoRemoved + lofRemoved;
    var r := BadDataCleaned(bad, isoRemoved, lofRemoved);
    CleanedSameSnippets(all);
    forall i | 0 <= i < |bad| ensures SameSnippet(r[i].rec, bad[i].rec) {
      assert all[i] == bad[i];
    }
    forall i | 0 <= i < |isoRemoved| ensures SameSnippet(r[|bad| + i].rec, isoRemoved[i].rec) {
      assert all[|bad| + i] == isoRemoved[i];
    }
    forall i | 0 <= i < |lofRemoved| ensures SameSnippet(r[|bad| + |isoRemoved| + i].rec, lofRemoved[i].rec) {
      assert all[|bad| + |isoRemoved| + i] == lofRemoved[i];
    }
  }

  /** Relabelling and dropping the anomaly columns keeps every snippet in its place. */
  lemma CleanedSameSnippets(all: seq<Row<Labelled>>)
    ensures forall i :: 0 <= i < |all| ==> SameSnippet(StripAnomalyColumns(Reindexed(all))[i].rec, all[i].rec)
  {
    forall i | 0 <= i < |all| ensures SameSnippet(StripAnomalyColumns(Reindexed(all))[i].rec, all[i].rec) {
      assert Reindexed(all)[i].rec == Records(Reindexed(all))[i] == Records(all)[i];
    }
  }

  /** What `run_pipeline` returns, and what it stores in the bad collection. */
  datatype Outcome = Outcome(
    finalGood: seq<Row<Labelled>>,
    isoRemoved: seq<Row<Labelled>>,
    lofRemoved: seq<Row<Labelled>>,
    badCleaned: seq<Row<Labelled>>)

  /**
   * From the stage 2 table on: split, filter, and collect what the filters
   * removed as the rows whose label no longer appears after the filter.
   */
  function Classify(df: seq<Row<Enriched>>, minLen: int, columns: set<string>, iso: Detector, lof: Detector): (r: Result<Outcome, string>)
    ensures (forall f :: f in FeatureColumns ==> f in columns) ==>
      (r.Ok? <==> |GoodData(df, minLen)| >= IsoMinRows
                  && IsolationFilter(columns, GoodData(df, minLen), iso).Ok?
                  && |IsolationFilter(columns, GoodData(df, minLen), iso).value| >= LofMinRows)
    ensures (forall f :: f in FeatureColumns ==> f in columns) && r.Err? ==> r.error == TooFewSamples
    ensures r.Ok? ==> |r.value.finalGood| <= |GoodData(df, minLen)| && IndexedFromZero(r.value.finalGood)
    ensures r.Ok? ==> |r.value.badCleaned| == |BadData(df, minLen)| + |r.value.isoRemoved| + |r.value.lofRemoved|
  {
    var good := GoodData(df, minLen);
    var bad := BadData(df, minLen);
    match IsolationFilter(columns, good, iso)
    case Err(e) => Err(e)
    case Ok(filteredByIso) =>
      var isoRemoved := NotLabelled(good, Labels(filteredByIso));
      match LofFilter(columns, filteredByIso, lof)
      case Err(e) => Err(e)
      case Ok(finalGood) =>
        var lofRemoved := NotLabelled(filteredByIso, Labels(finalGood));
        Ok(Outcome(StripAnomalyColumns(finalGood), isoRemoved, lofRemoved, BadDataCleaned(bad, isoRemoved, lofRemoved)))
  }

  /**
   * A single rule-good row is too few for the local outlier factor: the
   * isolation forest returns at most that row, and the LOF step raises.
   */
  lemma ClassifyFailsOnOneGoodRow(df: seq<Row<Enriched>>, minLen: int, columns: set<string>, iso: Detector, lof: Detector)
    requires forall f :: f in FeatureColumns ==> f in columns
    requires |GoodData(df, minLen)| == 1
    ensures Classify(df, minLen, columns, iso, lof) == Err(TooFewSamples)
  {
    var good := GoodData(df, minLen);
    PrunedOnFullSchema(FeatureColumns, columns);
    var filteredByIso := IsolationFilter(columns, good, iso).value;
    assert LofFilter(columns, filteredByIso, lof)
      == OutlierFilter(columns, filteredByIso, FeatureColumns, lof, LofMinRows, "anomaly_lof");
  }

  lemma AllGoodThroughFilters(good: seq<Row<Labelled>>, minLen: int, columns: set<string>, iso: Detector, lof: Detector)
    requires AllGood(good, minLen)
    ensures IsolationFilter(columns, good, iso).Ok? ==> AllGood(IsolationFilter(columns, good, iso).value, minLen)
    ensures LofFilter(columns, good, lof).Ok? ==> AllGood(LofFilter(columns, good, lof).value, minLen)
  {
    if IsolationFilter(columns, good, iso).Ok? {
      var out := IsolationFilter(columns, good, iso).value;
      IsolationFilterOrigin(columns, good, iso);
      forall x | x in out ensures x.rec.classLabel == 1 && !IsBad(x.rec.e, minLen) {
        var i :| 0 <= i < |out| && x == out[i];
        assert FromRow(out[i].rec, good);
        var y :| y in good && SameSnippet(out[i].rec, y.rec);
      }
    }
    if LofFilter(columns, good, lof).Ok? {
      var out := LofFilter(columns, good, lof).value;
      LofFilterOrigin(columns, good, lof);
      forall x | x in out ensures x.rec.classLabel == 1 && !IsBad(x.rec.e, minLen) {
        var i :| 0 <= i < |out| && x == out[i];
        assert FromRow(out[i].rec, good);
        var y :| y in good && SameSnippet(out[i].rec, y.rec);
      }
    }
  }

  /** Dropping the anomaly columns keeps rows good and leaves no anomaly column behind. */
  lemma StripKeepsGood(rows: seq<Row<Labelled>>, minLen: int)
    requires AllGood(rows, minLen)
    ensures var r := StripAnomalyColumns(rows);
      && AllGood(r, minLen)
      && (forall i :: 0 <= i < |r| ==> "anomaly_iso" !in r[i].rec.e.base.extra && "anomaly_lof" !in r[i].rec.e.base.extra)
  {
    var r := StripAnomalyColumns(rows);
    forall x | x in r ensures x.rec.classLabel == 1 && !IsBad(x.rec.e, minLen) {
      var i :| 0 <= i < |r| && x == r[i];
      assert rows[i] in rows;
    }
  }

  /** Every row that reaches the good collection is a rule-good row labelled 1, without anomaly columns. */
  lemma FinalGoodIsGood(df: seq<Row<Enriched>>, minLen: int, columns: set<string>, iso: Detector, lof: Detector)
    requires Classify(df, minLen, columns, iso, lof).Ok?
    ensures var o := Classify(df, minLen, columns, iso, lof).value;
      && AllGood(o.finalGood, minLen)
      && (forall i :: 0 <= i < |o.finalGood| ==>
            "anomaly_iso" !in o.finalGood[i].rec.e.base.extra && "anomaly_lof" !in o.finalGood[i].rec.e.base.extra)
  {
    var good := GoodData(df, minLen);
    RuleSplitLabels(df, minLen);
    AllGoodThroughFilters(good, minLen, columns, iso, lof);
    var filteredByIso := IsolationFilter(columns, good, iso).value;
    AllGoodThroughFilters(filteredByIso, minLen, columns, iso, lof);
    var finalGood := LofFilter(columns, filteredByIso, lof).value;
    StripKeepsGood(finalGood, minLen);
    assert Classify(df, minLen, columns, iso, lof).value.finalGood == StripAnomalyColumns(finalGood);
  }

  /**
   * Label alignment as written: when `before` and `after` are both labelled
   * 0, 1, ..., the rows reported removed are the last ones by position,
   * whichever rows the detector actually rejected.
   */
  lemma RemovedByLabelIsTail(before: seq<Row<Labelled>>, after: seq<Row<Labelled>>)
    requires IndexedFromZero(before) && IndexedFromZero(after) && |after| <= |before|
    ensures NotLabelled(before, Labels(after)) == before[|after|..]
  {
    var labels := Labels(after);
    forall j ensures j in labels <==> 0 <= j < |after| {
      if 0 <= j < |after| { assert labels[j] == j; }
    }
    NotLabelledConsecutive(before, labels, 0, |after|);
  }

  /** The rule split of a three-row table whose first row alone is rule-bad. */
  lemma SplitExample(c: Enriched, a: Enriched, b: Enriched, minLen: int)
    requires IsBad(c, minLen) && !IsBad(a, minLen) && !IsBad(b, minLen)
    ensures var df := [Row(0, c), Row(1, a), Row(2, b)];
      && GoodData(df, minLen) == [Row(1, Labelled(a, 1)), Row(2, Labelled(b, 1))]
      && BadData(df, minLen) == [Row(0, Labelled(c, 0))]
  {
    var df := [Row(0, c), Row(1, a), Row(2, b)];
    assert df[1..] == [Row(1, a), Row(2, b)];
    assert df[1..][1..] == [Row(2, b)];
    assert Where([Row(2, b)], e => !IsBad(e, minLen)) == [Row(2, b)];
    assert Where([Row(1, a), Row(2, b)], e => !IsBad(e, minLen)) == [Row(1, a), Row(2, b)];
    assert Where(df, e => !IsBad(e, minLen)) == [Row(1, a), Row(2, b)];
    assert Where([Row(2, b)], e => IsBad(e, minLen)) == [];
    assert Where([Row(1, a), Row(2, b)], e => IsBad(e, minLen)) == [];
    assert Where(df, e => IsBad(e, minLen)) == [Row(0, c)];
  }

  /**
   * With two good rows labelled 1 and 2 (row 0 was rule-bad) and detectors
   * that keep every row, the isolation step still reports the row labelled 2
   * as removed: it is both in the good collection and in the bad one.
   */
  lemma IsoRemovedMislabels(c: Enriched, a: Enriched, b: Enriched, minLen: int, columns: set<string>, iso: Detector, lof: Detector)
    requires IsBad(c, minLen) && !IsBad(a, minLen) && !IsBad(b, minLen)
    requires forall f :: f in FeatureColumns ==> f in columns
    requires forall m, i :: iso(m, i) == 1
    requires forall m, i :: lof(m, i) == 1
    ensures var r := Classify([Row(0, c), Row(1, a), Row(2, b)], minLen, columns, iso, lof);
      && r.Ok?
      && |r.value.finalGood| == 2
      && r.value.isoRemoved == [Row(2, Labelled(b, 1))]
      && r.value.lofRemoved == []
      && |r.value.badCleaned| == 2
  {
    var df := [Row(0, c), Row(1, a), Row(2, b)];
    SplitExample(c, a, b, minLen);
    var good := GoodData(df, minLen);
    IsoKeepsAllExample(a, b, columns, iso);
    var filteredByIso := IsolationFilter(columns, good, iso).value;
    FiltersKeepAll(columns, filteredByIso, lof);
    var finalGood := LofFilter(columns, filteredByIso, lof).value;
    RemovedByLabelIsTail(filteredByIso, finalGood);
  }

  /**
   * The isolation step of the example above: both good rows stay, relabelled
   * 0 and 1, so the row labelled 2 counts as removed.
   */
  lemma IsoKeepsAllExample(a: Enriched, b: Enriched, columns: set<string>, iso: Detector)
    requires forall f :: f in FeatureColumns ==> f in columns
    requires forall m, i :: iso(m, i) == 1
    ensures var good := [Row(1, Labelled(a, 1)), Row(2, Labelled(b, 1))];
      var r := IsolationFilter(columns, good, iso);
      && r.Ok? && |r.value| == 2 && IndexedFromZero(r.value)
      && NotLabelled(good, Labels(r.value)) == [Row(2, Labelled(b, 1))]
  {
    var good := [Row(1, Labelled(a, 1)), Row(2, Labelled(b, 1))];
    FiltersKeepAll(columns, good, iso);
    var filteredByIso := IsolationFilter(columns, good, iso).value;
    assert Labels(filteredByIso) == [0, 1];
    assert good[1..] == [Row(2, Labelled(b, 1))];
    var last := [Row(2, Labelled(b, 1))];
    assert last[1..] == [];
    assert 2 !in [0, 1];
    assert NotLabelled(last, [0, 1]) == [last[0]] + NotLabelled([], [0, 1]);
  }

  // ---------------------------------------------------------------------
  // The split the filters were evidently meant to report

  /**
   * The rows a filter keeps and the rows it rejects, both with their labels;
   * like the filter, a table with fewer rows than the detector needs raises.
   */
  function SplitByVerdict(rows: seq<Row<Labelled>>, columns: set<string>, detect: Detector, minRows: nat):
    (r: Result<(seq<Row<Labelled>>, seq<Row<Labelled>>), string>)
    ensures r.Err? <==> PresentFeatures(FeatureColumns, columns) != [] && |rows| < minRows
    ensures r.Ok? ==> |r.value.0| + |r.value.1| == |rows|
    ensures r.Ok? ==> IsSubseq(r.value.0, rows) && IsSubseq(r.value.1, rows)
  {
    var features := PresentFeatures(FeatureColumns, columns);
    if features == [] then
      SubseqRefl(rows);
      Ok((rows, []))
    else if |rows| < minRows then Err(TooFewSamples)
    else
      var keep := Verdicts(rows, features, detect);
      SelectPartition(rows, keep);
      SelectSubseq(rows, keep);
      SelectSubseq(rows, Negate(keep));
      Ok((Select(rows, keep), Select(rows, Negate(keep))))
  }

  lemma SplitByVerdictPartition(rows: seq<Row<Labelled>>, columns: set<string>, detect: Detector, minRows: nat)
    ensures var r := SplitByVerdict(rows, columns, detect, minRows);
      r.Ok? ==> multiset(r.value.0) + multiset(r.value.1) == multiset(rows)
  {
    var features := PresentFeatures(FeatureColumns, columns);
    if features != [] && |rows| >= minRows {
      SelectPartition(rows, Verdicts(rows, features, detect));
    }
  }

  /** On the full schema a filter keeps as many rows as the split calls kept. */
  lemma SplitKeepsAsManyAsFilter(rows: seq<Row<Labelled>>, columns: set<string>, detect: Detector, minRows: nat,
                                 anomalyColumn: string)
    requires forall f :: f in FeatureColumns ==> f in columns
    ensures var split := SplitByVerdict(rows, columns, detect, minRows);
      var filtered := OutlierFilter(columns, rows, Pruned(FeatureColumns, columns), detect, minRows, anomalyColumn);
      && (split.Ok? <==> filtered.Ok?)
      && (split.Ok? ==> |split.value.0| == |filtered.value|)
  {
    PrunedOnFullSchema(FeatureColumns, columns);
    if |rows| >= minRows {
      SelectAtPositions(rows, Verdicts(rows, FeatureColumns, detect));
    }
  }

  /**
   * The pipeline with each filter reporting the rows it rejected: labels
   * are kept until the end, so the removed rows are the rejected ones. It
   * raises where the pipeline as written raises.
   */
  function ClassifyCorrected(df: seq<Row<Enriched>>, minLen: int, columns: set<string>, iso: Detector, lof: Detector):
    (r: Result<Outcome, string>)
    ensures r.Ok? ==> |r.value.finalGood| + |r.value.isoRemoved| + |r.value.lofRemoved| == |GoodData(df, minLen)|
    ensures r.Ok? ==> IndexedFromZero(r.value.finalGood) && IndexedFromZero(r.value.badCleaned)
    ensures (forall f :: f in FeatureColumns ==> f in columns) ==> (r.Ok? <==> Classify(df, minLen, columns, iso, lof).Ok?)
  {
    var good := GoodData(df, minLen);
    var bad := BadData(df, minLen);
    assert (forall f :: f in FeatureColumns ==> f in columns) ==>
      (SplitByVerdict(good, columns, iso, IsoMinRows).Ok? <==> IsolationFilter(columns, good, iso).Ok?)
      && (SplitByVerdict(good, columns, iso, IsoMinRows).Ok? ==>
          |SplitByVerdict(good, columns, iso, IsoMinRows).value.0| == |IsolationFilter(columns, good, iso).value|) by {
      if forall f :: f in FeatureColumns ==> f in columns {
        SplitKeepsAsManyAsFilter(good, columns, iso, IsoMinRows, "anomaly_iso");
      }
    }
    match SplitByVerdict(good, columns, iso, IsoMinRows)
    case Err(e) => Err(e)
    case Ok((keptByIso, isoRemoved)) =>
      match SplitByVerdict(keptByIso, columns, lof, LofMinRows)
      case Err(e) => Err(e)
      case Ok((finalGood, lofRemoved)) =>
        Ok(Outcome(StripAnomalyColumns(Reindexed(finalGood)), isoRemoved, lofRemoved, BadDataCleaned(bad, isoRemoved, lofRemoved)))
  }

  /**
   * Each good row ends in exactly one of the three tables: kept by both
   * filters, removed by the isolation forest, or removed by the LOF.
   */
  lemma ClassifyCorrectedPartition(df: seq<Row<Enriched>>, minLen: int, columns: set<string>, iso: Detector, lof: Detector)
    requires ClassifyCorrected(df, minLen, columns, iso, lof).Ok?
    ensures var good := GoodData(df, minLen);
      var (keptByIso, isoRemoved) := SplitByVerdict(good, columns, iso, IsoMinRows).value;
      var (finalGood, lofRemoved) := SplitByVerdict(keptByIso, columns, lof, LofMinRows).value;
      var o := ClassifyCorrected(df, minLen, columns, iso, lof).value;
      && o.isoRemoved == isoRemoved && o.lofRemoved == lofRemoved
      && Records(o.finalGood) == Records(StripAnomalyColumns(finalGood))
      && multiset(finalGood) + multiset(isoRemoved) + multiset(lofRemoved) == multiset(good)
  {
    var good := GoodData(df, minLen);
    var (keptByIso, isoRemoved) := SplitByVerdict(good, columns, iso, IsoMinRows).value;
    var (finalGood, lofRemoved) := SplitByVerdict(keptByIso, columns, lof, LofMinRows).value;
    SplitByVerdictPartition(good, columns, iso, IsoMinRows);
    SplitByVerdictPartition(keptByIso, columns, lof, LofMinRows);
    var o := ClassifyCorrected(df, minLen, columns, iso, lof).value;
    forall i | 0 <= i < |finalGood| ensures Records(o.finalGood)[i] == Records(StripAnomalyColumns(finalGood))[i] {
      assert Reindexed(finalGood)[i].rec == Records(Reindexed(finalGood))[i];
    }
  }
  // ---------------------------------------------------------------------
  // The whole run

  /** The table `load_data_from_mongo` returns: its column names and its rows. */
  datatype Loaded = Loaded(columns: set<string>, rows: seq<Row<RawRecord>>)

  /** The columns the two stages and the labelling add to the loaded ones. */
  const AddedColumns: set<string> := {
    "original_content_length", "special_ratio", "clean_content", "content_length",
    "is_syntax_error", "maintainability_index", "cyclomatic_complexity",
    "function_definitions", "class_definitions", "imports", "has_module_docstring",
    "number_of_lines", "comment_ratio", "label"}

  /** A run either stops early with three empty tables and nothing stored, or finishes. */
  datatype Run = Stopped | Finished(outcome: Outcome)

  /**
   * `df.empty` on a loaded table: true when it has no rows, and also when it
   * has no columns, as happens when every document holds only `_id`, which
   * the loader drops.
   */
  predicate FrameEmpty(loaded: Loaded) {
    loaded.rows == [] || loaded.columns == {}
  }

  /**
   * `run_pipeline` on the loaded table. An empty table after loading or
   * after either stage stops the run; otherwise a missing `content` column
   * raises `KeyError` in stage 1, and too few good rows for a detector raise
   * `ValueError`.
   */
  function RunPipeline(loaded: Loaded, minLen: int, an: Analysers, iso: Detector, lof: Detector): (r: Result<Run, string>)
    ensures !FrameEmpty(loaded) && "content" !in loaded.columns ==> r.Err?
    ensures "content" in loaded.columns && r.Err? ==> r.error == TooFewSamples
    ensures FrameEmpty(loaded) ==> r == Ok(Stopped)
  {
    if FrameEmpty(loaded) then Ok(Stopped)
    else
      match PreprocessRule1(loaded.columns, loaded.rows)
      case Err(e) => Err(e)
      case Ok(df1) =>
        if df1 == [] then Ok(Stopped)
        else
          var df2 := PreprocessRule2(df1, minLen, an);
          if df2 == [] then Ok(Stopped)
          else
            var columns := loaded.columns + AddedColumns;
            match Classify(df2, minLen, columns, iso, lof)
            case Err(e) => Err(e)
            case Ok(o) => Ok(Finished(o))
  }

  /** A run whose stage 2 table has exactly one rule-good row raises in the LOF step. */
  lemma RunPipelineRaisesOnOneGoodRow(loaded: Loaded, minLen: int, an: Analysers, iso: Detector, lof: Detector)
    requires loaded.rows != [] && "content" in loaded.columns
    requires PreprocessRule1(loaded.columns, loaded.rows).Ok?
    requires |GoodData(PreprocessRule2(PreprocessRule1(loaded.columns, loaded.rows).value, minLen, an), minLen)| == 1
    ensures RunPipeline(loaded, minLen, an, iso, lof) == Err(TooFewSamples)
  {
    var df1 := PreprocessRule1(loaded.columns, loaded.rows).value;
    var df2 := PreprocessRule2(df1, minLen, an);
    assert df2 != [];
    ClassifyFailsOnOneGoodRow(df2, minLen, loaded.columns + AddedColumns, iso, lof);
  }

  /** A table in which no row holds a non-empty string of code stops the run after stage 1. */
  lemma RunPipelineStopsWithoutCode(loaded: Loaded, minLen: int, an: Analysers, iso: Detector, lof: Detector)
    requires "content" in loaded.columns
    requires forall i :: 0 <= i < |loaded.rows| ==> !loaded.rows[i].rec.content.Str? || loaded.rows[i].rec.content.s == []
    ensures RunPipeline(loaded, minLen, an, iso, lof) == Ok(Stopped)
  {
    Rule1EmptyWithoutCode(loaded.columns, loaded.rows);
  }
  // ---------------------------------------------------------------------
  // save_dataframe_to_jsonl_in_chunks

  /** `(n + chunk_size - 1) // chunk_size`: the number of chunks. */
  function ChunkCount(n: nat, size: nat): nat
    requires size > 0
  {
    (n + size - 1) / size
  }

  /** `df.iloc[i * size : min((i + 1) * size, len(df))]` */
  function Chunk<T>(t: seq<T>, size: nat, i: nat): seq<T>
    requires size > 0
  {
    var lo := i * size;
    var hi := lo + size;
    if lo >= |t| then [] else t[lo .. if hi < |t| then hi else |t|]
  }

  /** The chunks in order. */
  function Chunks<T>(t: seq<T>, size: nat): (cs: seq<seq<T>>)
    requires size > 0
    ensures |cs| == ChunkCount(|t|, size)
  {
    seq(ChunkCount(|t|, size), i requires 0 <= i < ChunkCount(|t|, size) => Chunk(t, size, i))
  }

  /** The chunks cover the table. */
  lemma ChunkCountCovers(n: nat, size: nat)
    requires size > 0
    ensures ChunkCount(n, size) * size >= n
  {
    var c := ChunkCount(n, size);
    assert n + size - 1 == c * size + (n + size - 1) % size;
  }

  /** Every chunk starts inside the table. */
  lemma ChunkStartInside(n: nat, size: nat, i: nat)
    requires size > 0 && i < ChunkCount(n, size)
    ensures i * size < n
  {
    var c := ChunkCount(n, size);
    assert c * size <= n + size - 1 by {
      assert n + size - 1 == c * size + (n + size - 1) % size;
    }
    MulMonotone(i + 1, c, size);
    assert (i + 1) * size == i * size + size;
  }

  lemma MulMonotone(a: nat, b: nat, k: nat)
    requires a <= b
    ensures a * k <= b * k
  {
    assert b * k == a * k + (b - a) * k;
  }

  /** Every chunk holds between 1 and `size` records. */
  lemma ChunksSized<T>(t: seq<T>, size: nat)
    requires size > 0
    ensures forall i :: 0 <= i < |Chunks(t, size)| ==> 0 < |Chunks(t, size)[i]| <= size
  {
    forall i | 0 <= i < |Chunks(t, size)| ensures 0 < |Chunks(t, size)[i]| <= size {
      ChunkStartInside(|t|, size, i);
    }
  }

  /** Chunk `k` continues the records before it. */
  lemma ChunkStep<T>(t: seq<T>, size: nat, k: nat, before: seq<T>)
    requires size > 0 && k * size < |t| && before == t[..k * size]
    ensures before + Chunk(t, size, k) == t[..if (k + 1) * size < |t| then (k + 1) * size else |t|]
  {
    assert k * size + size == (k + 1) * size;
  }

  /** The first `j` chunks are the first `j * size` records. */
  lemma {:induction false} ChunksPrefix<T>(t: seq<T>, size: nat, j: nat)
    requires size > 0 && j <= ChunkCount(|t|, size)
    ensures Flatten(Chunks(t, size)[..j]) == t[..if j * size < |t| then j * size else |t|]
  {
    if j > 0 {
      var cs := Chunks(t, size);
      var k := j - 1;
      ChunksPrefix(t, size, k);
      ChunkStartInside(|t|, size, k);
      assert cs[..j][..k] == cs[..k];
      ChunkStep(t, size, k, Flatten(cs[..k]));
    }
  }

  /** Writing the chunks in order writes the whole table. */
  lemma ChunksFlatten<T>(t: seq<T>, size: nat)
    requires size > 0
    ensures Flatten(Chunks(t, size)) == t
  {
    var cs := Chunks(t, size);
    ChunksPrefix(t, size, |cs|);
    ChunkCountCovers(|t|, size);
    assert cs[..|cs|] == cs;
  }

  /** A JSON Lines file that is only ever appended to. */
  class JsonlFile<T> {
    /** Whether the file exists. */
    var onDisk: bool
    /** The record batches appended so far, in order. */
    var writes: seq<seq<T>>

    /** The records in the file, one per line. */
    function Lines(): seq<T>
      reads this
    {
      Flatten(writes)
    }

    constructor(present: bool)
      ensures onDisk == present && writes == []
    {
      onDisk := present;
      writes := [];
    }

    /**
     * `save_dataframe_to_jsonl_in_chunks(df, path, chunk_size)`: an empty
     * table writes nothing; otherwise the table is appended one chunk at a
     * time, and the count of saved records is the table's length.
     */
    method AppendInChunks(t: seq<T>, chunkSize: nat) returns (savedCount: nat)
      requires chunkSize > 0
      modifies this
      ensures writes == old(writes) + Chunks(t, chunkSize)
      ensures Lines() == old(Lines()) + t
      ensures savedCount == |t|
      ensures onDisk == (old(onDisk) || t != [])
    {
      savedCount := 0;
      if t == [] {
        return;
      }
      ghost var before := writes;
      var totalChunks := (|t| + chunkSize - 1) / chunkSize;
      ChunkCountCovers(|t|, chunkSize);
      var i := 0;
      while i < totalChunks
        invariant 0 <= i <= totalChunks
        invariant writes == before + Chunks(t, chunkSize)[..i]
        invariant savedCount == if i * chunkSize < |t| then i * chunkSize else |t|
        invariant onDisk == (old(onDisk) || i > 0)
      {
        var startIdx := i * chunkSize;
        var endIdx := if (i + 1) * chunkSize < |t| then (i + 1) * chunkSize else |t|;
        ChunkStartInside(|t|, chunkSize, i);
        var chunk := t[startIdx..endIdx];
        assert chunk == Chunks(t, chunkSize)[i];
        if chunk != [] {
          writes := writes + [chunk];
          savedCount := savedCount + |chunk|;
          onDisk := true;
        }
        assert Chunks(t, chunkSize)[..i + 1] == Chunks(t, chunkSize)[..i] + [chunk];
        i := i + 1;
      }
      assert Chunks(t, chunkSize)[..i] == Chunks(t, chunkSize);
      ChunksFlatten(t, chunkSize);
      FlattenAppend(before, Chunks(t, chunkSize));
    }
  }

  /**
   * The saving steps of a finished run: the good table is appended to its
   * file, and the bad table to its own file when it is not empty. The two
   * paths may name the same file.
   */
  method SaveOutcome(o: Outcome, goodFile: JsonlFile<Labelled>, badFile: JsonlFile<Labelled>)
    modifies goodFile, badFile
    ensures goodFile != badFile ==> goodFile.Lines() == old(goodFile.Lines()) + Records(o.finalGood)
    ensures goodFile != badFile ==> badFile.Lines() == old(badFile.Lines()) + Records(o.badCleaned)
    ensures goodFile == badFile ==> goodFile.Lines() == old(goodFile.Lines()) + Records(o.finalGood) + Records(o.badCleaned)
    ensures goodFile != badFile ==> goodFile.onDisk == (old(goodFile.onDisk) || o.finalGood != [])
    ensures goodFile != badFile ==> badFile.onDisk == (old(badFile.onDisk) || o.badCleaned != [])
    ensures goodFile == badFile ==> goodFile.onDisk == (old(goodFile.onDisk) || o.finalGood != [] || o.badCleaned != [])
  {
    var _ := goodFile.AppendInChunks(Records(o.finalGood), 1000);
    if o.badCleaned != [] {
      var _ := badFile.AppendInChunks(Records(o.badCleaned), 1000);
    }
  }
}
