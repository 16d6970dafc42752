/**
 * The two outlier filters applied to the rule-good rows: each prunes its
 * feature list against the table's columns, asks a detector for one verdict
 * per row, keeps the rows whose verdict is 1, drops its anomaly column and
 * resets the labels. The detectors (an isolation forest and a local outlier
 * factor) are the `Detector` parameter.
 */
module MlValidation {
  import opened Wrappers
  import opened Frames
  import opened Streams
  import opened Preprocessing

  /** A row as the filters see it: the stage 2 record and its rule label. */
  datatype Labelled = Labelled(e: Enriched, classLabel: int)

  /** The record without the pass-through column `col`; every other column is unchanged. */
  function WithoutColumn(x: Labelled, col: string): (y: Labelled)
    ensures col !in y.e.base.extra
    ensures y.e.base.extra == x.e.base.extra - {col}
    ensures y.e.metrics == x.e.metrics && y.classLabel == x.classLabel
    ensures y.e.base.content == x.e.base.content && y.e.base.originalLength == x.e.base.originalLength
  {
    Labelled(Enriched(x.e.base.(extra := x.e.base.extra - {col}), x.e.metrics), x.classLabel)
  }

  function DropColumn(rows: seq<Row<Labelled>>, col: string): (r: seq<Row<Labelled>>)
    ensures |r| == |rows|
    ensures forall i :: 0 <= i < |rows| ==> r[i] == Row(rows[i].index, WithoutColumn(rows[i].rec, col))
  {
    seq(|rows|, i requires 0 <= i < |rows| => Row(rows[i].index, WithoutColumn(rows[i].rec, col)))
  }

  /** The features both filters start from, in this order. */
  const FeatureColumns: seq<string> :=
    ["content_length", "cyclomatic_complexity", "maintainability_index", "comment_ratio"]

  /**
   * The feature list left by `for col in features: if col not in columns:
   * features.remove(col)`. Removing the current element shifts the next one
   * into its place, and the iterator then moves past it, so the element after
   * every removed one stays without being checked.
   */
  function Pruned(fs: seq<string>, columns: set<string>): seq<string>
    decreases |fs|
  {
    if fs == [] then []
    else if fs[0] in columns then [fs[0]] + Pruned(fs[1..], columns)
    else if |fs| == 1 then []
    else [fs[1]] + Pruned(fs[2..], columns)
  }

  /**
   * What the pruning leaves of `xs` when the iterator stands at position `i`:
   * the positions it has passed stay, the rest is pruned as usual.
   */
  function PrunedFrom(xs: seq<string>, i: nat, columns: set<string>): seq<string> {
    var k := if i <= |xs| then i else |xs|;
    xs[..k] + Pruned(xs[k..], columns)
  }

  /**
   * The pruning loop as written, run on the feature list `fs`. On a list
   * without repeats, `remove(col)` deletes position `i`, the position the
   * iterator is at.
   */
  method PruneFeatures(fs: seq<string>, columns: set<string>) returns (features: seq<string>)
    ensures features == Pruned(fs, columns)
    ensures 2 * |features| >= |fs| - 1
  {
    features := fs;
    var i := 0;
    assert PrunedFrom(fs, 0, columns) == Pruned(fs, columns) by {
      assert fs[..0] == [] && fs[0..] == fs;
    }
    while i < |features|
      invariant i <= |features| + 1
      invariant Pruned(fs, columns) == PrunedFrom(features, i, columns)
      decreases |features| - i + 1
    {
      features := PruneAt(features, i, columns);
      i := i + 1;
    }
    PrunedFromEnd(features, i, columns);
    PrunedKeepsHalf(fs, columns);
  }

  /** One turn of the loop: the feature at `i` goes if the table lacks it, and the iterator moves on. */
  method PruneAt(features: seq<string>, i: nat, columns: set<string>) returns (next: seq<string>)
    requires i < |features|
    ensures features[i] in columns ==> next == features
    ensures features[i] !in columns ==> next == features[..i] + features[i + 1..]
    ensures PrunedFrom(next, i + 1, columns) == PrunedFrom(features, i, columns)
  {
    if features[i] !in columns {
      next := features[..i] + features[i + 1..];
      PruneStep(features, i, columns);
    } else {
      next := features;
      assert features[..i + 1] == features[..i] + [features[i]];
      assert features[i..][1..] == features[i + 1..];
    }
  }

  /** Once the iterator has passed the end, nothing is left to prune. */
  lemma PrunedFromEnd(xs: seq<string>, i: nat, columns: set<string>)
    requires i >= |xs|
    ensures PrunedFrom(xs, i, columns) == xs
  {
    assert xs[..|xs|] == xs;
  }

  /** Removing position `i` of `fs` while the iterator stands there. */
  lemma PruneStep(fs: seq<string>, i: nat, columns: set<string>)
    requires i < |fs| && fs[i] !in columns
    ensures PrunedFrom(fs[..i] + fs[i + 1..], i + 1, columns) == PrunedFrom(fs, i, columns)
  {
    var after := fs[..i] + fs[i + 1..];
    assert fs[i..][1..] == fs[i + 1..];
    if i + 1 < |fs| {
      assert fs[i..][2..] == fs[i + 2..];
      assert after[..i + 1] == fs[..i] + [fs[i + 1]];
      assert after[i + 1..] == fs[i + 2..];
    } else {
      assert after == fs[..i];
      assert after[..|after|] == after;
    }
  }

  /** At least half of the list survives pruning, rounded up. */
  lemma {:induction false} PrunedKeepsHalf(fs: seq<string>, columns: set<string>)
    ensures 2 * |Pruned(fs, columns)| >= |fs| - 1
    ensures |fs| >= 2 ==> |Pruned(fs, columns)| >= 1
    decreases |fs|
  {
    if fs != [] {
      if fs[0] in columns {
        PrunedKeepsHalf(fs[1..], columns);
      } else if |fs| > 1 {
        PrunedKeepsHalf(fs[2..], columns);
      }
    }
  }

  /**
   * The pruned list can keep columns the table lacks: with none of the four
   * features present, two survive, and selecting them fails.
   */
  lemma PrunedKeepsMissingColumns()
    ensures Pruned(FeatureColumns, {}) == ["cyclomatic_complexity", "comment_ratio"]
  {
    assert FeatureColumns[2..] == ["maintainability_index", "comment_ratio"];
    assert FeatureColumns[2..][2..] == [];
  }

  /** The features the pruning loop was evidently meant to leave: those present, in order. */
  function PresentFeatures(fs: seq<string>, columns: set<string>): (r: seq<string>)
    ensures forall f :: f in r <==> f in fs && f in columns
    ensures IsSubseq(r, fs)
    ensures |r| <= |fs|
  {
    if fs == [] then []
    else
      var rest := PresentFeatures(fs[1..], columns);
      assert forall f :: f in fs <==> f == fs[0] || f in fs[1..];
      if fs[0] in columns then
        assert ([fs[0]] + rest)[1..] == rest;
        [fs[0]] + rest
      else
        SubseqWeaken(rest, fs[1..], fs[0]);
        assert [fs[0]] + fs[1..] == fs;
        rest
  }

  /** When every feature is present, pruning as written and the intended selection agree. */
  lemma {:induction false} PrunedOnFullSchema(fs: seq<string>, columns: set<string>)
    requires forall i :: 0 <= i < |fs| ==> fs[i] in columns
    ensures Pruned(fs, columns) == fs
    ensures PresentFeatures(fs, columns) == fs
  {
    if fs != [] {
      PrunedOnFullSchema(fs[1..], columns);
    }
  }

  /** The value a feature column holds for a row. */
  function FeatureValue(x: Labelled, f: string): real {
    var m := x.e.metrics;
    if f == "content_length" then m.contentLength as real
    else if f == "cyclomatic_complexity" then m.cyclomaticComplexity as real
    else if f == "maintainability_index" then m.maintainabilityIndex
    else if f == "comment_ratio" then
      var r := m.structure.CommentRatio();
      if r.den == 0 then 0.0 else r.num as real / r.den as real
    else 0.0
  }

  /** `df[features]` as a matrix, one line per row. */
  function FeatureMatrix(rows: seq<Row<Labelled>>, features: seq<string>): (m: seq<seq<real>>)
    ensures |m| == |rows|
  {
    seq(|rows|, i requires 0 <= i < |rows| =>
      seq(|features|, j requires 0 <= j < |features| => FeatureValue(rows[i].rec, features[j])))
  }

  /** `fit_predict`: a verdict per row of the matrix, 1 for an inlier and -1 for an outlier. */
  type Detector = (seq<seq<real>>, nat) -> int

  /** Which rows the detector keeps, position by position. */
  function Verdicts(rows: seq<Row<Labelled>>, features: seq<string>, detect: Detector): (keep: seq<bool>)
    ensures |keep| == |rows|
  {
    var m := FeatureMatrix(rows, features);
    seq(|rows|, i requires 0 <= i < |rows| => detect(m, i) == 1)
  }

  /** The fewest rows `IsolationForest.fit_predict` accepts: an empty matrix raises `ValueError`. */
  const IsoMinRows: nat := 1

  /**
   * The fewest rows `LocalOutlierFactor.fit_predict` accepts: it needs at
   * least one neighbour besides the row itself, so a single row raises
   * `ValueError` as well.
   */
  const LofMinRows: nat := 2

  const TooFewSamples := "ValueError: too few samples for the detector"

  /**
   * One filter with a given feature list: a feature the table lacks raises
   * `KeyError`; no features at all returns the table as it is; a table with
   * fewer rows than the detector needs raises `ValueError`; otherwise the
   * rows with verdict 1, in order, without the anomaly column, relabelled
   * 0..k-1.
   */
  function OutlierFilter(columns: set<string>, rows: seq<Row<Labelled>>, features: seq<string>,
                         detect: Detector, minRows: nat, anomalyColumn: string): (r: Result<seq<Row<Labelled>>, string>)
    ensures r.Err? <==> (exists f :: f in features && f !in columns) || (features != [] && |rows| < minRows)
    ensures r.Err? && (forall f :: f in features ==> f in columns) ==> r.error == TooFewSamples
    ensures r.Ok? && features == [] ==> r.value == rows
    ensures r.Ok? && features != [] ==>
      var keep := Verdicts(rows, features, detect);
      && IndexedFromZero(r.value)
      && |r.value| == |Positions(keep)| <= |rows|
      && forall j :: 0 <= j < |r.value| ==> r.value[j].rec == WithoutColumn(rows[Positions(keep)[j]].rec, anomalyColumn)
  {
    if exists f :: f in features && f !in columns then Err("KeyError: feature column missing")
    else if features == [] then Ok(rows)
    else if |rows| < minRows then Err(TooFewSamples)
    else
      var keep := Verdicts(rows, features, detect);
      var sel := Select(rows, keep);
      SelectAtPositions(rows, keep);
      var out := Reindexed(DropColumn(sel, anomalyColumn));
      assert forall j :: 0 <= j < |out| ==> out[j].rec == Records(out)[j] == DropColumn(sel, anomalyColumn)[j].rec;
      Ok(out)
  }

  /** `isolation_filter` */
  function IsolationFilter(columns: set<string>, rows: seq<Row<Labelled>>, detect: Detector): (r: Result<seq<Row<Labelled>>, string>)
    ensures r.Ok? ==> |r.value| <= |rows| && IndexedFromZero(r.value)
    ensures r.Ok? ==> forall i :: 0 <= i < |r.value| ==> "anomaly_iso" !in r.value[i].rec.e.base.extra
    ensures (forall f :: f in FeatureColumns ==> f in columns) ==> (r.Ok? <==> |rows| >= IsoMinRows)
    ensures (forall f :: f in FeatureColumns ==> f in columns) && r.Err? ==> r.error == TooFewSamples
  {
    var features := Pruned(FeatureColumns, columns);
    PrunedKeepsHalf(FeatureColumns, columns);
    var r := OutlierFilter(columns, rows, features, detect, IsoMinRows, "anomaly_iso");
    assert (forall f :: f in FeatureColumns ==> f in columns) ==>
      (r.Ok? <==> |rows| >= IsoMinRows) && (r.Err? ==> r.error == TooFewSamples) by {
      if forall f :: f in FeatureColumns ==> f in columns {
        PrunedOnFullSchema(FeatureColumns, columns);
      }
    }
    r
  }

  /** `lof_filter`; `n_neighbors` is part of the detector. */
  function LofFilter(columns: set<string>, rows: seq<Row<Labelled>>, detect: Detector): (r: Result<seq<Row<Labelled>>, string>)
    ensures r.Ok? ==> |r.value| <= |rows| && IndexedFromZero(r.value)
    ensures r.Ok? ==> forall i :: 0 <= i < |r.value| ==> "anomaly_lof" !in r.value[i].rec.e.base.extra
    ensures (forall f :: f in FeatureColumns ==> f in columns) ==> (r.Ok? <==> |rows| >= LofMinRows)
    ensures (forall f :: f in FeatureColumns ==> f in columns) && r.Err? ==> r.error == TooFewSamples
  {
    var features := Pruned(FeatureColumns, columns);
    PrunedKeepsHalf(FeatureColumns, columns);
    var r := OutlierFilter(columns, rows, features, detect, LofMinRows, "anomaly_lof");
    assert (forall f :: f in FeatureColumns ==> f in columns) ==>
      (r.Ok? <==> |rows| >= LofMinRows) && (r.Err? ==> r.error == TooFewSamples) by {
      if forall f :: f in FeatureColumns ==> f in columns {
        PrunedOnFullSchema(FeatureColumns, columns);
      }
    }
    r
  }

  /** Two records of the same snippet: they differ at most in pass-through columns. */
  predicate SameSnippet(x: Labelled, y: Labelled) {
    x.e.metrics == y.e.metrics && x.classLabel == y.classLabel
    && x.e.base.content == y.e.base.content && x.e.base.originalLength == y.e.base.originalLength
  }

  /** Every row of `out` is one of `rows`, up to the pass-through columns. */
  predicate FromRows(out: seq<Row<Labelled>>, rows: seq<Row<Labelled>>) {
    forall i :: 0 <= i < |out| ==> FromRow(out[i].rec, rows)
  }

  /** The record is one of `rows`', up to the pass-through columns. */
  predicate FromRow(x: Labelled, rows: seq<Row<Labelled>>) {
    exists y :: y in rows && SameSnippet(x, y.rec)
  }

  /** Every row a filter returns is one of its input rows, up to the anomaly column. */
  lemma OutlierFilterOrigin(columns: set<string>, rows: seq<Row<Labelled>>, features: seq<string>,
                            detect: Detector, minRows: nat, anomalyColumn: string)
    requires OutlierFilter(columns, rows, features, detect, minRows, anomalyColumn).Ok?
    ensures FromRows(OutlierFilter(columns, rows, features, detect, minRows, anomalyColumn).value, rows)
  {
    var out := OutlierFilter(columns, rows, features, detect, minRows, anomalyColumn).value;
    if features != [] {
      var keep := Verdicts(rows, features, detect);
      var sel := Select(rows, keep);
      assert out == Reindexed(DropColumn(sel, anomalyColumn));
      SelectSubseq(rows, keep);
      forall i | 0 <= i < |out| ensures FromRow(out[i].rec, rows) {
        assert out[i].rec == Records(out)[i] == Records(DropColumn(sel, anomalyColumn))[i];
        assert sel[i] in rows;
        assert SameSnippet(out[i].rec, sel[i].rec);
      }
    } else {
      assert out == rows;
      forall i | 0 <= i < |out| ensures FromRow(out[i].rec, rows) {
        assert out[i] in rows && SameSnippet(out[i].rec, out[i].rec);
      }
    }
  }

  lemma IsolationFilterOrigin(columns: set<string>, rows: seq<Row<Labelled>>, detect: Detector)
    requires IsolationFilter(columns, rows, detect).Ok?
    ensures FromRows(IsolationFilter(columns, rows, detect).value, rows)
  {
    assert IsolationFilter(columns, rows, detect)
      == OutlierFilter(columns, rows, Pruned(FeatureColumns, columns), detect, IsoMinRows, "anomaly_iso");
    OutlierFilterOrigin(columns, rows, Pruned(FeatureColumns, columns), detect, IsoMinRows, "anomaly_iso");
  }

  lemma LofFilterOrigin(columns: set<string>, rows: seq<Row<Labelled>>, detect: Detector)
    requires LofFilter(columns, rows, detect).Ok?
    ensures FromRows(LofFilter(columns, rows, detect).value, rows)
  {
    assert LofFilter(columns, rows, detect)
      == OutlierFilter(columns, rows, Pruned(FeatureColumns, columns), detect, LofMinRows, "anomaly_lof");
    OutlierFilterOrigin(columns, rows, Pruned(FeatureColumns, columns), detect, LofMinRows, "anomaly_lof");
  }

  /** A detector that accepts every row makes a filter only drop its column and relabel. */
  lemma FiltersKeepAll(columns: set<string>, rows: seq<Row<Labelled>>, detect: Detector)
    requires forall f :: f in FeatureColumns ==> f in columns
    requires forall m, i :: detect(m, i) == 1
    ensures |rows| >= IsoMinRows ==> IsolationFilter(columns, rows, detect) == Ok(Reindexed(DropColumn(rows, "anomaly_iso")))
    ensures |rows| >= LofMinRows ==> LofFilter(columns, rows, detect) == Ok(Reindexed(DropColumn(rows, "anomaly_lof")))
  {
    PrunedOnFullSchema(FeatureColumns, columns);
    SelectAllTrue(rows, Verdicts(rows, FeatureColumns, detect));
  }
}
