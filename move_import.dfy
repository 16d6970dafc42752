/**
 * Moving trailing import lines of a fill-in-the-middle sample's prefix into
 * the hole: with three imports in the prefix the last one moves, with four or
 * more the last two move, and the moved lines are prepended to the target.
 */
module MoveImport {
  import opened Wrappers
  import opened Text
  import opened Json
  import opened Streams

  /** `line.strip().startswith(("import ", "from "))` */
  predicate IsImportLine(line: string) {
    StartsWith(Strip(line), "import ") || StartsWith(Strip(line), "from ")
  }

  /** `extract_import_lines`: the positions of the import lines, in increasing order. */
  function ImportIndices(lines: seq<string>): (idx: seq<nat>)
    ensures forall j :: 0 <= j < |idx| ==> idx[j] < |lines| && IsImportLine(lines[idx[j]])
    ensures Increasing(idx)
    ensures forall i :: 0 <= i < |lines| && IsImportLine(lines[i]) ==> i in idx
    ensures |idx| <= |lines|
  {
    Positions(seq(|lines|, i requires 0 <= i < |lines| => IsImportLine(lines[i])))
  }

  /** The lines whose positions are not in `drop`, in order. */
  function Without<T>(lines: seq<T>, drop: seq<nat>): (r: seq<T>)
    ensures |r| <= |lines|
  {
    if lines == [] then []
    else
      var n := |lines| - 1;
      Without(lines[..n], drop) + (if n in drop then [] else [lines[n]])
  }

  /** Past the end of `drop`'s reach, `Without` keeps a run of lines as it is. */
  lemma {:induction false} WithoutRun<T>(lines: seq<T>, drop: seq<nat>, lo: nat, hi: nat)
    requires lo <= hi <= |lines|
    requires forall i :: lo <= i < hi ==> i !in drop
    ensures Without(lines[..hi], drop) == Without(lines[..lo], drop) + lines[lo..hi]
    decreases hi
  {
    if hi > lo {
      WithoutRun(lines, drop, lo, hi - 1);
      assert lines[..hi][..hi - 1] == lines[..hi - 1];
      assert lines[lo..hi] == lines[lo..hi - 1] + [lines[hi - 1]];
    }
  }

  /** A dropped position followed by a run of kept ones. */
  lemma WithoutGap<T>(lines: seq<T>, drop: seq<nat>, a: nat, hi: nat)
    requires a < hi <= |lines| && a in drop
    requires forall i :: a < i < hi ==> i !in drop
    ensures Without(lines[..hi], drop) == Without(lines[..a], drop) + lines[a + 1..hi]
  {
    WithoutRun(lines, drop, a + 1, hi);
    assert lines[..a + 1][..a] == lines[..a];
  }

  /** The lines up to `a` when no position before `a` is dropped. */
  lemma WithoutNoneBefore<T>(lines: seq<T>, drop: seq<nat>, a: nat)
    requires a <= |lines|
    requires forall i :: 0 <= i < a ==> i !in drop
    ensures Without(lines[..a], drop) == lines[..a]
  {
    WithoutRun(lines, drop, 0, a);
    assert lines[..0] == [];
  }

  /** A last dropped position `a`: the lines after it all stay. */
  lemma WithoutLast<T>(lines: seq<T>, drop: seq<nat>, a: nat)
    requires a < |lines| && a in drop
    requires forall i :: a < i < |lines| ==> i !in drop
    ensures Without(lines, drop) == Without(lines[..a], drop) + lines[a + 1..]
  {
    WithoutGap(lines, drop, a, |lines|);
    assert lines[..|lines|] == lines;
  }

  /** A first dropped position `a` and nothing else dropped before `hi`. */
  lemma WithoutFirst<T>(lines: seq<T>, drop: seq<nat>, a: nat, hi: nat)
    requires a < hi <= |lines| && a in drop
    requires forall i :: 0 <= i < hi && i != a ==> i !in drop
    ensures Without(lines[..hi], drop) == lines[..a] + lines[a + 1..hi]
  {
    WithoutGap(lines, drop, a, hi);
    WithoutNoneBefore(lines, drop, a);
  }

  /** Dropping one position `a` leaves the lines before it and the lines after it. */
  lemma WithoutOne<T>(lines: seq<T>, a: nat)
    requires a < |lines|
    ensures Without(lines, [a]) == lines[..a] + lines[a + 1..]
  {
    WithoutLast(lines, [a], a);
    WithoutNoneBefore(lines, [a], a);
  }

  /** Dropping positions `a < b` leaves the three runs around them. */
  lemma WithoutTwo<T>(lines: seq<T>, a: nat, b: nat)
    requires a < b < |lines|
    ensures Without(lines, [a, b]) == lines[..a] + lines[a + 1..b] + lines[b + 1..]
  {
    WithoutLast(lines, [a, b], b);
    WithoutFirst(lines, [a, b], a, b);
  }

  /** How many imports move: none below three, one at exactly three, two from four on. */
  function MoveCount(imports: nat): (n: nat)
    ensures n <= 2 && n <= imports
    ensures n == 0 <==> imports < 3
  {
    if imports < 3 then 0 else if imports == 3 then 1 else 2
  }

  /**
   * Given the increasing import positions `idx`, the split of the prefix
   * lines into the lines that stay and the lines that move; `None` when
   * fewer than three imports leave the sample alone.
   */
  function MovePlan<T>(lines: seq<T>, idx: seq<nat>): (r: Option<(seq<T>, seq<T>)>)
    requires forall j :: 0 <= j < |idx| ==> idx[j] < |lines|
    requires Increasing(idx)
    ensures r.None? <==> |idx| < 3
    ensures r.Some? ==> |r.value.1| == MoveCount(|idx|)
    ensures r.Some? ==> |r.value.0| + |r.value.1| == |lines|
    ensures r.Some? ==> forall j :: 0 <= j < |r.value.1| ==> r.value.1[j] == lines[idx[|idx| - |r.value.1| + j]]
  {
    if |idx| < 3 then None
    else
      var toMove := idx[|idx| - MoveCount(|idx|)..];
      var moved := seq(|toMove|, j requires 0 <= j < |toMove| => lines[toMove[j]]);
      assert |Without(lines, toMove)| == |lines| - |toMove| by {
        var n := |idx|;
        if n == 3 {
          assert toMove == [idx[n - 1]];
          WithoutOne(lines, idx[n - 1]);
        } else {
          assert toMove == [idx[n - 2], idx[n - 1]];
          WithoutTwo(lines, idx[n - 2], idx[n - 1]);
        }
      }
      Some((Without(lines, toMove), moved))
  }

  /** With exactly three imports the last is moved and the prefix closes over its gap. */
  lemma MoveThree<T>(lines: seq<T>, idx: seq<nat>)
    requires forall j :: 0 <= j < |idx| ==> idx[j] < |lines|
    requires Increasing(idx) && |idx| == 3
    ensures MovePlan(lines, idx) == Some((lines[..idx[2]] + lines[idx[2] + 1..], [lines[idx[2]]]))
  {
    WithoutOne(lines, idx[2]);
    var toMove := idx[3 - MoveCount(3)..];
    assert toMove == [idx[2]];
    var r := MovePlan(lines, idx).value;
    assert r.1 == [lines[idx[2]]];
    assert r.0 == Without(lines, toMove);
  }

  /** With four or more imports the last two are moved, in their order, and the rest stays in order. */
  lemma MoveLastTwo<T>(lines: seq<T>, idx: seq<nat>)
    requires forall j :: 0 <= j < |idx| ==> idx[j] < |lines|
    requires Increasing(idx) && |idx| >= 4
    ensures var a, b := idx[|idx| - 2], idx[|idx| - 1];
      && a < b
      && MovePlan(lines, idx) == Some((lines[..a] + lines[a + 1..b] + lines[b + 1..], [lines[a], lines[b]]))
  {
    var n := |idx|;
    WithoutTwo(lines, idx[n - 2], idx[n - 1]);
    var toMove := idx[n - MoveCount(n)..];
    assert toMove == [idx[n - 2], idx[n - 1]];
    var r := MovePlan(lines, idx).value;
    assert r.1 == [lines[idx[n - 2]], lines[idx[n - 1]]];
    assert r.0 == Without(lines, toMove);
  }

  /** The plan for the actual import lines of a prefix; every moved line is an import. */
  function MoveImports(lines: seq<string>): (r: Option<(seq<string>, seq<string>)>)
    ensures r.None? <==> |ImportIndices(lines)| < 3
    ensures r.Some? ==> forall j :: 0 <= j < |r.value.1| ==> IsImportLine(r.value.1[j])
  {
    MovePlan(lines, ImportIndices(lines))
  }

  /** No text is lost or created: the kept and moved lines together are as long as the prefix. */
  lemma MoveKeepsLength(lines: seq<string>)
    requires MoveImports(lines).Some?
    ensures var (kept, moved) := MoveImports(lines).value;
      |Concat(kept)| + |Concat(moved)| == |Concat(lines)|
  {
    PlanKeepsLength(lines, ImportIndices(lines));
  }

  lemma PlanKeepsLength(lines: seq<string>, idx: seq<nat>)
    requires forall j :: 0 <= j < |idx| ==> idx[j] < |lines|
    requires Increasing(idx) && |idx| >= 3
    ensures var (kept, moved) := MovePlan(lines, idx).value;
      |Concat(kept)| + |Concat(moved)| == |Concat(lines)|
  {
    var n := |idx|;
    if n == 3 {
      var a := idx[2];
      assert MovePlan(lines, idx).value == (lines[..a] + lines[a + 1..], [lines[a]]) by {
        MoveThree(lines, idx);
      }
      ConcatSplitOne(lines, a);
    } else {
      var a, b := idx[n - 2], idx[n - 1];
      assert a < b && MovePlan(lines, idx).value == (lines[..a] + lines[a + 1..b] + lines[b + 1..], [lines[a], lines[b]]) by {
        MoveLastTwo(lines, idx);
      }
      ConcatSplitTwo(lines, a, b);
    }
  }

  lemma ConcatSplitOne(lines: seq<string>, a: nat)
    requires a < |lines|
    ensures |Concat(lines[..a] + lines[a + 1..])| + |Concat([lines[a]])| == |Concat(lines)|
  {
    assert lines == lines[..a] + [lines[a]] + lines[a + 1..];
    ConcatAppend(lines[..a] + [lines[a]], lines[a + 1..]);
    ConcatAppend(lines[..a], [lines[a]]);
    ConcatAppend(lines[..a], lines[a + 1..]);
  }

  lemma ConcatSplitTwo(lines: seq<string>, a: nat, b: nat)
    requires a < b < |lines|
    ensures |Concat(lines[..a] + lines[a + 1..b] + lines[b + 1..])| + |Concat([lines[a], lines[b]])| == |Concat(lines)|
  {
    var p, q, r := lines[..a], lines[a + 1..b], lines[b + 1..];
    assert lines == p + [lines[a]] + q + [lines[b]] + r;
    ConcatAppend(p + [lines[a]] + q + [lines[b]], r);
    ConcatAppend(p + [lines[a]] + q, [lines[b]]);
    ConcatAppend(p + [lines[a]], q);
    ConcatAppend(p, [lines[a]]);
    ConcatAppend(p + q, r);
    ConcatAppend(p, q);
    assert [lines[a], lines[b]] == [lines[a]] + [lines[b]];
    ConcatAppend([lines[a]], [lines[b]]);
  }

  /**
   * `adjust_imports_in_prefix`. `None` where the script raises: the sample is
   * not a dict, it has no `prefix_code`, the prefix is not a string, or lines
   * must move and `target_code` is not a string.
   */
  function AdjustImports(sample: Json): (r: Option<Json>)
    ensures r.Some? ==> sample.JObj? && r.value.JObj? && GetOr(sample.fields, "prefix_code", JNull).JStr?
    ensures r.Some? ==> forall k :: k !in ["prefix_code", "target_code", "suffix_code"] ==>
      Get(r.value.fields, k) == Get(sample.fields, k)
  {
    match sample
    case JObj(fields) =>
      (match Get(fields, "prefix_code")
       case Some(JStr(prefix)) =>
         (match MoveImports(SplitLinesKeepEnds(prefix))
          case None => Some(sample)
          case Some((kept, moved)) =>
            var target := GetOr(fields, "target_code", JStr(""));
            var suffix := GetOr(fields, "suffix_code", JStr(""));
            if !target.JStr? then None
            else
              var f1 := Set(fields, "prefix_code", JStr(Concat(kept)));
              var f2 := Set(f1, "target_code", JStr(Concat(moved) + target.s));
              Some(JObj(Set(f2, "suffix_code", suffix))))
       case _ => None)
    case _ => None
  }

  /** Fewer than three imports in the prefix: the sample comes back unchanged. */
  lemma AdjustFewImports(fields: seq<Field>, prefix: string)
    requires Get(fields, "prefix_code") == Some(JStr(prefix))
    requires |ImportIndices(SplitLinesKeepEnds(prefix))| < 3
    ensures AdjustImports(JObj(fields)) == Some(JObj(fields))
  {
  }

  /**
   * Three or more imports: the prefix keeps the other lines, the target is
   * the moved lines followed by the old target, the suffix keeps its value
   * (or becomes "" when absent), and prefix plus target keep their length.
   */
  lemma AdjustMoves(fields: seq<Field>, prefix: string, target: string)
    requires Get(fields, "prefix_code") == Some(JStr(prefix))
    requires GetOr(fields, "target_code", JStr("")) == JStr(target)
    requires |ImportIndices(SplitLinesKeepEnds(prefix))| >= 3
    ensures var r := AdjustImports(JObj(fields));
      var (kept, moved) := MoveImports(SplitLinesKeepEnds(prefix)).value;
      && r.Some?
      && Get(r.value.fields, "prefix_code") == Some(JStr(Concat(kept)))
      && Get(r.value.fields, "target_code") == Some(JStr(Concat(moved) + target))
      && Get(r.value.fields, "suffix_code") == Some(GetOr(fields, "suffix_code", JStr("")))
      && |Concat(kept)| + |Concat(moved) + target| == |prefix| + |target|
  {
    MoveKeepsLength(SplitLinesKeepEnds(prefix));
  }

  /** One line of `process_jsonl`: a line that does not parse (`None`) or that raises is dropped. */
  function AdjustLine(line: Option<Json>): (r: Option<Json>)
    ensures r.Some? ==> line.Some? && AdjustImports(line.value) == r
  {
    match line
    case Some(s) => AdjustImports(s)
    case None => None
  }

  /** A sample that is not a dict or has no `prefix_code` raises, and its line is left out of the output. */
  lemma MissingPrefixDropped(sample: Json)
    requires !sample.JObj? || !Has(sample.fields, "prefix_code")
    ensures Collected([Some(sample)], AdjustLine) == []
  {
    CollectedOne(Some(sample), AdjustLine);
  }

  /** `process_jsonl`: the loop that collects the adjusted samples, in input order. */
  method ProcessJsonl(lines: seq<Option<Json>>) returns (updated: seq<Json>)
    ensures updated == Collected(lines, AdjustLine)
  {
    updated := [];
    var i := 0;
    while i < |lines|
      invariant 0 <= i <= |lines|
      invariant updated == Collected(lines[..i], AdjustLine)
    {
      assert lines[..i + 1][..i] == lines[..i];
      var r := AdjustLine(lines[i]);
      if r.Some? {
        updated := updated + [r.value];
      }
      i := i + 1;
    }
    assert lines[..i] == lines;
  }
}
