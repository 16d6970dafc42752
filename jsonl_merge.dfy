/**
 * Merging several JSON-lines files of fill-in-the-middle samples into one:
 * each record is cut down to its three code fields in a fixed order and
 * written once, the first time its serialisation is seen.
 */
module JsonlMerge {
  import opened Wrappers
  import opened Text
  import opened Json
  import opened Streams
  import opened Frames

  const CodeKeys: seq<string> := ["prefix_code", "target_code", "suffix_code"]

  /** `reorder_keys`: the three code fields, in this order, missing ones as "". */
  function ReorderKeys(fields: seq<Field>): (r: seq<Field>)
    ensures Keys(r) == CodeKeys
    ensures forall k :: k in CodeKeys ==> Get(r, k) == Some(GetOr(fields, k, JStr("")))
    ensures forall k :: k !in CodeKeys ==> Get(r, k).None?
  {
    var r := [Field("prefix_code", GetOr(fields, "prefix_code", JStr(""))),
              Field("target_code", GetOr(fields, "target_code", JStr(""))),
              Field("suffix_code", GetOr(fields, "suffix_code", JStr("")))];
    assert r[1..][1..] == [r[2]] && r[1..][1..][1..] == [];
    assert Keys(r) == CodeKeys by {
      assert Keys(r[1..][1..]) == ["suffix_code"];
    }
    assert Get(r, "suffix_code") == Some(GetOr(fields, "suffix_code", JStr(""))) by {
      assert Get(r[1..][1..], "suffix_code") == Some(r[2].value);
    }
    r
  }

  /**
   * What one line contributes. A blank line or one that fails to decode is
   * skipped; a decoded value that is not an object makes `.get` raise
   * `AttributeError` inside the `try`, which only catches
   * `json.JSONDecodeError`, so the error escapes and ends the whole merge.
   */
  datatype Outcome<T> = Skip | Record(text: T) | Abort

  /** `parse` stands for `json.loads` (`None` on a decode error), `dumps` for `json.dumps`. */
  function LineOutcome(line: string, parse: string -> Option<Json>, dumps: Json -> string): (o: Outcome<string>)
    ensures IsBlank(line) ==> o == Skip
    ensures o.Record? ==> exists fields :: parse(Strip(line)) == Some(JObj(fields)) && o.text == dumps(JObj(ReorderKeys(fields)))
    ensures o.Abort? ==> parse(Strip(line)).Some? && !parse(Strip(line)).value.JObj?
  {
    var t := Strip(line);
    if t == [] then Skip
    else
      match parse(t)
      case None => Skip
      case Some(obj) => if obj.JObj? then Record(dumps(JObj(ReorderKeys(obj.fields)))) else Abort
  }

  function Outcomes(lines: seq<string>, parse: string -> Option<Json>, dumps: Json -> string): (os: seq<Outcome<string>>)
    ensures |os| == |lines|
  {
    if lines == [] then []
    else Outcomes(lines[..|lines| - 1], parse, dumps) + [LineOutcome(lines[|lines| - 1], parse, dumps)]
  }

  datatype Merged<T> = Merged(written: seq<T>, aborted: bool)

  /** One line's effect on the output and on the `seen` set (which is the set of `written`). */
  function Step<T(==)>(m: Merged<T>, o: Outcome<T>): (r: Merged<T>)
    ensures m.aborted ==> r == m
    ensures forall x :: x in m.written ==> x in r.written
  {
    if m.aborted then m
    else
      match o
      case Skip => m
      case Abort => Merged(m.written, true)
      case Record(s) => if s in m.written then m else Merged(m.written + [s], false)
  }

  /** The merge over the outcomes of all lines, in file order and then line order. */
  function Merge<T(==)>(os: seq<Outcome<T>>): (m: Merged<T>)
  {
    if os == [] then Merged([], false) else Step(Merge(os[..|os| - 1]), os[|os| - 1])
  }

  /** The records' texts, in order, up to the line that ends the merge. */
  function Serialised<T(==)>(os: seq<Outcome<T>>): seq<T>
  {
    if os == [] then []
    else
      var prev := Serialised(os[..|os| - 1]);
      if Merge(os[..|os| - 1]).aborted then prev
      else
        match os[|os| - 1]
        case Record(s) => prev + [s]
        case _ => prev
  }

  predicate NoDuplicates<T(==)>(xs: seq<T>) {
    forall i, j :: 0 <= i < j < |xs| ==> xs[i] != xs[j]
  }

  /** No text is written twice. */
  lemma {:induction false} MergeNoDuplicates<T>(os: seq<Outcome<T>>)
    ensures NoDuplicates(Merge(os).written)
  {
    if os != [] {
      MergeNoDuplicates(os[..|os| - 1]);
    }
  }

  /** Each element at the first position it occurs, in order: a position is kept exactly when its value does not occur earlier. */
  function FirstOccurrences<T(==,!new)>(xs: seq<T>): (r: seq<T>)
    ensures forall x :: x in r <==> x in xs
  {
    if xs == [] then []
    else
      var n := |xs| - 1;
      var prev := FirstOccurrences(xs[..n]);
      assert forall x :: x in xs <==> x in xs[..n] || x == xs[n];
      if xs[n] in xs[..n] then prev else prev + [xs[n]]
  }

  /** The first occurrences repeat nothing. */
  lemma {:induction false} FirstOccurrencesNoDuplicates<T(!new)>(xs: seq<T>)
    ensures NoDuplicates(FirstOccurrences(xs))
  {
    if xs != [] {
      FirstOccurrencesNoDuplicates(xs[..|xs| - 1]);
    }
  }

  /**
   * The written texts are the records' texts with every repeat dropped:
   * exactly the first occurrence of each text, in the order of first
   * appearance.
   */
  lemma {:induction false} MergeKeepsFirst<T(!new)>(os: seq<Outcome<T>>)
    ensures Merge(os).written == FirstOccurrences(Serialised(os))
    ensures IsSubseq(Merge(os).written, Serialised(os))
    ensures forall x :: x in Serialised(os) ==> x in Merge(os).written
  {
    if os != [] {
      var n := |os| - 1;
      MergeKeepsFirst(os[..n]);
      var w := Merge(os[..n]).written;
      var s := Serialised(os[..n]);
      if !Merge(os[..n]).aborted {
        match os[n]
        case Record(x) =>
          assert Serialised(os) == s + [x];
          assert (s + [x])[..|s|] == s;
          assert FirstOccurrences(s + [x]) == if x in s then FirstOccurrences(s) else FirstOccurrences(s) + [x];
          if x in w {
            SubseqAppendRight(w, s, x);
          } else {
            SubseqAppendBoth(w, s, x);
          }
        case _ =>
      }
    }
  }

  lemma {:induction false} SubseqAppendRight<T>(a: seq<T>, b: seq<T>, x: T)
    requires IsSubseq(a, b)
    ensures IsSubseq(a, b + [x])
    decreases |b|
  {
    if a != [] && b != [] {
      assert (b + [x])[1..] == b[1..] + [x];
      if a[0] == b[0] { SubseqAppendRight(a[1..], b[1..], x); } else { SubseqAppendRight(a, b[1..], x); }
    }
  }

  lemma {:induction false} SubseqAppendBoth<T>(a: seq<T>, b: seq<T>, x: T)
    requires IsSubseq(a, b)
    ensures IsSubseq(a + [x], b + [x])
    decreases |b|
  {
    if a == [] {
      SubseqOfSingle(b, x);
      assert a + [x] == [x];
    } else {
      assert (a + [x])[1..] == a[1..] + [x];
      if b == [] {
        assert false;
      }
      assert (b + [x])[1..] == b[1..] + [x];
      if a[0] == b[0] { SubseqAppendBoth(a[1..], b[1..], x); } else { SubseqAppendBoth(a, b[1..], x); }
    }
  }

  lemma {:induction false} SubseqOfSingle<T>(b: seq<T>, x: T)
    ensures IsSubseq([x], b + [x])
    decreases |b|
  {
    if b != [] {
      assert (b + [x])[1..] == b[1..] + [x];
      SubseqOfSingle(b[1..], x);
      if b[0] == x {
        assert IsSubseq([x][1..], (b + [x])[1..]);
      }
    } else {
      assert [x][1..] == [];
    }
  }

  /** Every written text is the text of a record of some line. */
  lemma {:induction false} MergeSound<T>(os: seq<Outcome<T>>)
    ensures forall x :: x in Merge(os).written ==> exists i :: 0 <= i < |os| && os[i] == Record(x)
  {
    if os != [] {
      var n := |os| - 1;
      MergeSound(os[..n]);
      assert forall i :: 0 <= i < n ==> os[..n][i] == os[i];
    }
  }

  /** When no line ends the merge, every record's text is written (and, by the above, once). */
  lemma {:induction false} MergeComplete<T>(os: seq<Outcome<T>>)
    requires !Merge(os).aborted
    ensures forall i :: 0 <= i < |os| && os[i].Record? ==> os[i].text in Merge(os).written
  {
    if os != [] {
      var n := |os| - 1;
      assert !Merge(os[..n]).aborted;
      MergeComplete(os[..n]);
      assert forall i :: 0 <= i < n ==> os[..n][i] == os[i];
    }
  }

  /** A value that is not an object ends the merge: nothing after it is written. */
  lemma {:induction false} MergeAbortStays<T>(os: seq<Outcome<T>>, more: seq<Outcome<T>>)
    requires Merge(os).aborted
    ensures Merge(os + more) == Merge(os)
    decreases |more|
  {
    if more == [] {
      assert os + more == os;
    } else {
      assert (os + more)[..|os + more| - 1] == os + more[..|more| - 1];
      MergeAbortStays(os, more[..|more| - 1]);
    }
  }

  /** One more outcome extends the merge by one step. */
  lemma MergeSnoc<T>(os: seq<Outcome<T>>, o: Outcome<T>)
    ensures Merge(os + [o]) == Step(Merge(os), o)
  {
    assert (os + [o])[..|os|] == os;
  }

  lemma {:induction false} OutcomesAppend(a: seq<string>, b: seq<string>, parse: string -> Option<Json>, dumps: Json -> string)
    ensures Outcomes(a + b, parse, dumps) == Outcomes(a, parse, dumps) + Outcomes(b, parse, dumps)
    decreases |b|
  {
    if b == [] {
      assert a + b == a;
    } else {
      assert (a + b)[..|a + b| - 1] == a + b[..|b| - 1];
      OutcomesAppend(a, b[..|b| - 1], parse, dumps);
    }
  }

  /** The body of the inner loop: one line read, checked against `seen` and perhaps written. */
  method MergeLine(line: string, parse: string -> Option<Json>, dumps: Json -> string,
                   seen0: set<string>, written0: seq<string>, aborted0: bool)
    returns (seen: set<string>, written: seq<string>, aborted: bool)
    requires forall x :: x in seen0 <==> x in written0
    ensures Merged(written, aborted) == Step(Merged(written0, aborted0), LineOutcome(line, parse, dumps))
    ensures forall x :: x in seen <==> x in written
  {
    seen, written, aborted := seen0, written0, aborted0;
    // Once the exception has been raised nothing further is written.
    var t := Strip(line);
    if !aborted && t != [] {
      var obj := parse(t);
      if obj.Some? {
        if !obj.value.JObj? {
          aborted := true;
        } else {
          var s := dumps(JObj(ReorderKeys(obj.value.fields)));
          if s !in seen {
            seen := seen + {s};
            written := written + [s];
          }
        }
      }
    }
  }

  /** The inner loop of `merge_jsonl_unique` over the lines of one file. */
  method MergeFile(lines: seq<string>, parse: string -> Option<Json>, dumps: Json -> string,
                   seen0: set<string>, written0: seq<string>, aborted0: bool, ghost os0: seq<Outcome<string>>)
    returns (seen: set<string>, written: seq<string>, aborted: bool)
    requires Merged(written0, aborted0) == Merge(os0)
    requires forall x :: x in seen0 <==> x in written0
    ensures Merged(written, aborted) == Merge(os0 + Outcomes(lines, parse, dumps))
    ensures forall x :: x in seen <==> x in written
  {
    seen, written, aborted := seen0, written0, aborted0;
    ghost var os := os0;
    var j := 0;
    while j < |lines|
      invariant 0 <= j <= |lines|
      invariant os == os0 + Outcomes(lines[..j], parse, dumps)
      invariant Merged(written, aborted) == Merge(os)
      invariant forall x :: x in seen <==> x in written
    {
      assert lines[..j + 1][..j] == lines[..j];
      ghost var o := LineOutcome(lines[j], parse, dumps);
      MergeSnoc(os, o);
      seen, written, aborted := MergeLine(lines[j], parse, dumps, seen, written, aborted);
      os := os + [o];
      j := j + 1;
    }
    assert lines[..j] == lines;
  }

  /** `merge_jsonl_unique`, with each file given as its lines. */
  method MergeJsonlUnique(files: seq<seq<string>>, parse: string -> Option<Json>, dumps: Json -> string)
    returns (written: seq<string>, aborted: bool)
    ensures Merged(written, aborted) == Merge(Outcomes(Flatten(files), parse, dumps))
  {
    var seen: set<string> := {};
    written, aborted := [], false;
    var f := 0;
    while f < |files|
      invariant 0 <= f <= |files|
      invariant Merged(written, aborted) == Merge(Outcomes(Flatten(files[..f]), parse, dumps))
      invariant forall x :: x in seen <==> x in written
    {
      seen, written, aborted := MergeFile(files[f], parse, dumps, seen, written, aborted, Outcomes(Flatten(files[..f]), parse, dumps));
      FlattenSnoc(files, f);
      OutcomesAppend(Flatten(files[..f]), files[f], parse, dumps);
      f := f + 1;
    }
    assert files[..f] == files;
  }
}
