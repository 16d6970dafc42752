/**
 * Short fill-in-the-middle samples (`codetoshortfim.py`): every top-level
 * statement of a file becomes a target, with the previous statement as prefix
 * and the first lines of the next statement as suffix.
 *
 * `ast.parse` is a parameter: `None` stands for a syntax error, otherwise the
 * line range of each statement of `tree.body`, in order.
 */
module ShortFim {
  import opened Wrappers
  import opened Text
  import opened Json
  import opened Streams
  import opened Fim

  /** `node.lineno` and `node.end_lineno` of one top-level statement. */
  datatype NodeLines = NodeLines(lineno: int, endLineno: Option<int>)

  /** A statement's `(start, end)`: a missing end line stands for the start line. */
  datatype Range = Range(start: int, end: int)

  function RangeOf(node: NodeLines): (r: Range)
    ensures r.start == node.lineno
    ensures node.endLineno.Some? ==> r.end == node.endLineno.value
    ensures node.endLineno.None? ==> r.end == node.lineno
  {
    match node.endLineno
    case None => Range(node.lineno, node.lineno)
    case Some(e) => Range(node.lineno, e)
  }

  function Max(a: int, b: int): int {
    if a >= b then a else b
  }

  /** The text of a statement: `"\n".join(lines[start - 1:end])`. */
  function Target(lines: seq<string>, r: Range): string {
    Join("\n", PySlice(lines, r.start - 1, r.end))
  }

  /** The text before the first statement: `"\n".join(lines[0:start - 1])`. */
  function Head(lines: seq<string>, r: Range): string {
    Join("\n", PySlice(lines, 0, r.start - 1))
  }

  /** The fallback for a blank head: at most `m` lines just before the first statement. */
  function HeadWindow(lines: seq<string>, r: Range, m: int): string {
    Join("\n", PySlice(lines, Max(0, r.start - 1 - m), r.start - 1))
  }

  /** The prefix of statement `i`. */
  function Prefix(lines: seq<string>, ranges: seq<Range>, targets: seq<string>, i: nat, m: int): string
    requires i < |ranges| && |targets| == |ranges|
  {
    if i == 0 then
      var head := Head(lines, ranges[0]);
      if IsBlank(head) then HeadWindow(lines, ranges[0], m) else head
    else targets[i - 1]
  }

  /** The suffix of statement `i`: empty for the last one, else the first `m` lines of the next. */
  function Suffix(targets: seq<string>, i: nat, m: int): string
    requires i < |targets|
  {
    if i == |targets| - 1 then [] else Join("\n", PySlice(SplitLines(targets[i + 1]), 0, m))
  }

  /** The sample of statement `i`, unless its prefix or its suffix is blank. */
  function Candidate(lines: seq<string>, ranges: seq<Range>, targets: seq<string>, i: nat, m: int): (c: Option<Sample>)
    requires i < |ranges| && |targets| == |ranges|
    ensures c.Some? ==> !IsBlank(c.value.prefix) && !IsBlank(c.value.suffix)
  {
    var prefix := Prefix(lines, ranges, targets, i, m);
    var suffix := Suffix(targets, i, m);
    if IsBlank(prefix) || IsBlank(suffix) then None else Some(Sample(prefix, targets[i], suffix))
  }

  /** What every statement yields, in statement order. */
  function Candidates(lines: seq<string>, ranges: seq<Range>, targets: seq<string>, m: int): (cs: seq<Option<Sample>>)
    requires |targets| == |ranges|
    ensures |cs| == |ranges|
    ensures forall i :: 0 <= i < |ranges| ==> cs[i] == Candidate(lines, ranges, targets, i, m)
  {
    seq(|ranges|, i requires 0 <= i < |ranges| => Candidate(lines, ranges, targets, i, m))
  }

  function Ranges(nodes: seq<NodeLines>): (rs: seq<Range>)
    ensures |rs| == |nodes|
    ensures forall i :: 0 <= i < |nodes| ==> rs[i] == RangeOf(nodes[i])
  {
    seq(|nodes|, i requires 0 <= i < |nodes| => RangeOf(nodes[i]))
  }

  function Targets(lines: seq<string>, ranges: seq<Range>): (ts: seq<string>)
    ensures |ts| == |ranges|
    ensures forall i :: 0 <= i < |ranges| ==> ts[i] == Target(lines, ranges[i])
  {
    seq(|ranges|, i requires 0 <= i < |ranges| => Target(lines, ranges[i]))
  }

  /** The result of `extract_larger_chunks(code, m)` when `ast.parse(code)` gives `parsed`. */
  function LargerChunks(code: string, parsed: Option<seq<NodeLines>>, m: int): seq<Sample> {
    match parsed
    case None => [Sample([], code, [])]
    case Some(nodes) =>
      var lines := SplitLines(code);
      var ranges := Ranges(nodes);
      Somes(Candidates(lines, ranges, Targets(lines, ranges), m))
  }

  // ---------------------------------------------------------------------------
  // Properties

  /** The last statement has no suffix, so it never yields a sample. */
  lemma LastNodeSkipped(lines: seq<string>, ranges: seq<Range>, targets: seq<string>, m: int)
    requires |ranges| > 0 && |targets| == |ranges|
    ensures Candidate(lines, ranges, targets, |ranges| - 1, m).None?
  {
    assert Suffix(targets, |ranges| - 1, m) == [];
  }

  /** The samples are exactly the values of the statements' candidates. */
  lemma KeptMembers(lines: seq<string>, ranges: seq<Range>, targets: seq<string>, m: int)
    requires |targets| == |ranges|
    ensures forall s :: s in Somes(Candidates(lines, ranges, targets, m)) <==>
      exists i :: 0 <= i < |ranges| && Candidate(lines, ranges, targets, i, m) == Some(s)
  {
    var cs := Candidates(lines, ranges, targets, m);
    SomesMembers(cs);
    forall s | s in Somes(cs)
      ensures exists i :: 0 <= i < |ranges| && Candidate(lines, ranges, targets, i, m) == Some(s)
    {
      var i :| 0 <= i < |cs| && cs[i] == Some(s);
    }
    forall s | exists i :: 0 <= i < |ranges| && Candidate(lines, ranges, targets, i, m) == Some(s)
      ensures s in Somes(cs)
    {
      var i :| 0 <= i < |ranges| && Candidate(lines, ranges, targets, i, m) == Some(s);
      assert cs[i] == Some(s);
    }
  }

  /**
   * On a syntax error the whole code is the one target, with empty prefix and
   * suffix; otherwise every sample has a non-blank prefix and suffix, and there
   * are at most as many samples as statements less one.
   */
  lemma LargerChunksShape(code: string, parsed: Option<seq<NodeLines>>, m: int)
    ensures parsed.None? ==> LargerChunks(code, parsed, m) == [Sample([], code, [])]
    ensures parsed.Some? ==> |LargerChunks(code, parsed, m)| <= Max(0, |parsed.value| - 1)
    ensures parsed.Some? ==> forall s :: s in LargerChunks(code, parsed, m) ==> !IsBlank(s.prefix) && !IsBlank(s.suffix)
  {
    if parsed.Some? {
      var nodes := parsed.value;
      var lines := SplitLines(code);
      var ranges := Ranges(nodes);
      var targets := Targets(lines, ranges);
      var cs := Candidates(lines, ranges, targets, m);
      KeptMembers(lines, ranges, targets, m);
      if |nodes| > 0 {
        LastNodeSkipped(lines, ranges, targets, m);
        assert Somes(cs) == Somes(cs[..|cs| - 1]);
      }
    }
  }

  /**
   * A statement after the first yields a sample exactly when it is not the last,
   * the previous statement's text is not blank and the first `m` lines of the
   * next statement are not blank; the sample is those three texts.
   */
  lemma LaterNodeSample(lines: seq<string>, ranges: seq<Range>, m: int, i: nat)
    requires 0 < i < |ranges|
    ensures var targets := Targets(lines, ranges);
      var next := if i + 1 < |ranges| then Join("\n", PySlice(SplitLines(Target(lines, ranges[i + 1])), 0, m)) else [];
      && (Candidate(lines, ranges, targets, i, m).Some? <==>
            (i + 1 < |ranges| && !IsBlank(Target(lines, ranges[i - 1])) && !IsBlank(next)))
      && (Candidate(lines, ranges, targets, i, m).Some? ==>
            Candidate(lines, ranges, targets, i, m).value
            == Sample(Target(lines, ranges[i - 1]), Target(lines, ranges[i]), next))
  {
  }

  /**
   * The first statement's fallback window lies inside its head, so when the
   * head is blank the window is blank too: the fallback never rescues a sample.
   */
  lemma HeadWindowUseless(lines: seq<string>, r: Range, m: int)
    ensures IsBlank(Head(lines, r)) ==> IsBlank(HeadWindow(lines, r, m))
  {
    var whole := PySlice(lines, 0, r.start - 1);
    var window := PySlice(lines, Max(0, r.start - 1 - m), r.start - 1);
    JoinBlank("\n", whole);
    JoinBlank("\n", window);
    PySliceWithin(lines, Max(0, r.start - 1 - m), r.start - 1);
    if IsBlank(Head(lines, r)) {
      forall k | 0 <= k < |window| ensures IsBlank(window[k]) {
        assert window[k] in whole;
      }
    }
  }

  /** So the first statement's prefix is blank exactly when its head is. */
  lemma FirstPrefixBlank(lines: seq<string>, ranges: seq<Range>, targets: seq<string>, m: int)
    requires |ranges| > 0 && |targets| == |ranges|
    ensures IsBlank(Prefix(lines, ranges, targets, 0, m)) <==> IsBlank(Head(lines, ranges[0]))
  {
    HeadWindowUseless(lines, ranges[0], m);
  }

  // ---------------------------------------------------------------------------
  // The imperative code

  /** The `for node in tree.body` loop. */
  method NodeRanges(nodes: seq<NodeLines>) returns (ranges: seq<Range>)
    ensures ranges == Ranges(nodes)
  {
    ranges := [];
    for i := 0 to |nodes|
      invariant |ranges| == i
      invariant forall j :: 0 <= j < i ==> ranges[j] == RangeOf(nodes[j])
    {
      var start := nodes[i].lineno;
      var end := nodes[i].endLineno;
      var last := if end.None? then start else end.value;
      ranges := ranges + [Range(start, last)];
    }
  }

  /** The loop that collects `targets`. */
  method TargetTexts(lines: seq<string>, ranges: seq<Range>) returns (targets: seq<string>)
    ensures targets == Targets(lines, ranges)
  {
    targets := [];
    for i := 0 to |ranges|
      invariant |targets| == i
      invariant forall j :: 0 <= j < i ==> targets[j] == Target(lines, ranges[j])
    {
      var targetCode := Join("\n", PySlice(lines, ranges[i].start - 1, ranges[i].end));
      targets := targets + [targetCode];
    }
  }

  /** `extract_larger_chunks`. */
  method ExtractLargerChunks(code: string, parsed: Option<seq<NodeLines>>, m: int) returns (chunks: seq<Sample>)
    ensures chunks == LargerChunks(code, parsed, m)
  {
    var lines := SplitLines(code);
    if parsed.None? {
      return [Sample([], code, [])];
    }
    var ranges := NodeRanges(parsed.value);
    var targets := TargetTexts(lines, ranges);
    ghost var cs := Candidates(lines, ranges, targets, m);
    chunks := [];
    for i := 0 to |ranges|
      invariant chunks == Somes(cs[..i])
    {
      SomesSnoc(cs, i);
      var c := Candidate(lines, ranges, targets, i, m);
      if c.Some? {
        chunks := chunks + [c.value];
      }
    }
    assert cs[..|ranges|] == cs;
  }

  // ---------------------------------------------------------------------------
  // The file loop

  /**
   * What one input line does. `decode` stands for `json.loads` (`None` on a
   * decode error) and `parse` for `ast.parse`. A line that does not decode,
   * is not an object, or whose `content` is not a string raises, which ends
   * the run; a blank line or blank content is skipped.
   */
  function LineChunks(line: string, decode: string -> Option<Json>, parse: string -> Option<seq<NodeLines>>, m: int)
    : (r: Option<seq<Sample>>)
    ensures IsBlank(line) ==> r == Some([])
  {
    if IsBlank(line) then Some([])
    else
      match decode(line)
      case Some(JObj(fields)) =>
        (match GetOr(fields, "content", JStr([]))
         case JStr(codeStr) =>
           if IsBlank(codeStr) then Some([]) else Some(LargerChunks(codeStr, parse(codeStr), m))
         case _ => None)
      case _ => None
  }

  /** The chunks written for the lines, and whether a line ended the run. */
  function FileChunks(lines: seq<string>, decode: string -> Option<Json>, parse: string -> Option<seq<NodeLines>>, m: int)
    : (r: (seq<Sample>, bool))
  {
    if lines == [] then ([], false)
    else
      var (written, aborted) := FileChunks(lines[..|lines| - 1], decode, parse, m);
      if aborted then (written, true)
      else
        match LineChunks(lines[|lines| - 1], decode, parse, m)
        case None => (written, true)
        case Some(cs) => (written + cs, false)
  }

  /**
   * Nothing written has a blank prefix or suffix unless it is the whole code
   * of a file that does not parse.
   */
  lemma {:induction false} FileChunksSound(lines: seq<string>, decode: string -> Option<Json>,
                                           parse: string -> Option<seq<NodeLines>>, m: int)
    ensures forall s :: s in FileChunks(lines, decode, parse, m).0 ==>
      (!IsBlank(s.prefix) && !IsBlank(s.suffix)) || (s.prefix == [] && s.suffix == [] && parse(s.target).None?)
  {
    if lines != [] {
      FileChunksSound(lines[..|lines| - 1], decode, parse, m);
      var line := lines[|lines| - 1];
      if !IsBlank(line) && decode(line).Some? && decode(line).value.JObj? {
        var fields := decode(line).value.fields;
        var content := GetOr(fields, "content", JStr([]));
        if content.JStr? && !IsBlank(content.s) {
          LargerChunksShape(content.s, parse(content.s), m);
        }
      }
    }
  }

  /** `process_jsonl_with_larger_chunks`, with the file's lines as input and the written chunks as output. */
  method ProcessJsonlWithLargerChunks(lines: seq<string>, decode: string -> Option<Json>,
                                     parse: string -> Option<seq<NodeLines>>, m: int)
    returns (written: seq<Sample>, aborted: bool)
    ensures (written, aborted) == FileChunks(lines, decode, parse, m)
  {
    written := [];
    aborted := false;
    var k := 0;
    while k < |lines|
      invariant k <= |lines|
      invariant FileChunks(lines[..k], decode, parse, m) == (written, false)
      invariant !aborted
    {
      FileChunksSnoc(lines, k, decode, parse, m);
      var line := lines[k];
      if IsBlank(line) {
        assert written + [] == written;
        k := k + 1;
        continue;
      }
      var data := decode(line);
      if !(data.Some? && data.value.JObj?) {
        aborted := true;
        break;
      }
      var codeStr := GetOr(data.value.fields, "content", JStr([]));
      if !codeStr.JStr? {
        aborted := true;
        break;
      }
      if IsBlank(codeStr.s) {
        assert written + [] == written;
        k := k + 1;
        continue;
      }
      var chunks := ExtractLargerChunks(codeStr.s, parse(codeStr.s), m);
      written := written + chunks;
      k := k + 1;
    }
    if aborted {
      FileChunksAbortStays(lines, k + 1, decode, parse, m);
    } else {
      assert lines[..k] == lines;
    }
  }

  /** One more line. */
  lemma FileChunksSnoc(lines: seq<string>, k: nat, decode: string -> Option<Json>,
                       parse: string -> Option<seq<NodeLines>>, m: int)
    requires k < |lines|
    ensures var (written, aborted) := FileChunks(lines[..k], decode, parse, m);
      var r := LineChunks(lines[k], decode, parse, m);
      FileChunks(lines[..k + 1], decode, parse, m)
      == (if aborted || r.None? then (written, true) else (written + r.value, false))
  {
    assert lines[..k + 1][..k] == lines[..k];
  }

  /** Once a line has ended the run, later lines change nothing. */
  lemma {:induction false} FileChunksAbortStays(lines: seq<string>, k: nat, decode: string -> Option<Json>,
                                                parse: string -> Option<seq<NodeLines>>, m: int)
    requires k <= |lines| && FileChunks(lines[..k], decode, parse, m).1
    ensures FileChunks(lines, decode, parse, m) == FileChunks(lines[..k], decode, parse, m)
    decreases |lines| - k
  {
    if k < |lines| {
      assert lines[..k + 1][..k] == lines[..k];
      FileChunksAbortStays(lines, k + 1, decode, parse, m);
    } else {
      assert lines[..k] == lines;
    }
  }
}
