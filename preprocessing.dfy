/**
 * The two preprocessing stages of the data pipeline and the per-snippet
 * measurements they attach: comment stripping, the special-character ratio,
 * the syntax check, maintainability and cyclomatic complexity, and the code
 * structure summary.
 *
 * `ast.parse`, radon's `mi_visit`/`cc_visit` and the AST walk are not
 * modelled; they are the `Analysers` parameter.
 */
module Preprocessing {
  import opened Wrappers
  import opened Text
  import opened Frames
  import Streams

  /** A fraction `num / den` with `den > 0`, for the ratios computed with `/`. */
  datatype Ratio = Ratio(num: nat, den: nat)

  // ---------------------------------------------------------------------
  // remove_comments

  /** Number of characters of `s` before its first '\n'. */
  function LineRest(s: string): (k: nat)
    ensures k <= |s|
    ensures forall i :: 0 <= i < k ==> s[i] != '\n'
    ensures k < |s| ==> s[k] == '\n'
  {
    if s == [] || s[0] == '\n' then 0 else 1 + LineRest(s[1..])
  }

  /**
   * `re.sub(r"#.*", "", s)`: every `#` goes together with the rest of its
   * line; the newline itself stays, so the text keeps its line count.
   */
  function DropHashComments(s: string): (r: string)
    ensures |r| <= |s|
    ensures '#' !in r
    ensures forall c :: c in r ==> c in s
    ensures '#' !in s ==> r == s
    decreases |s|
  {
    if s == [] then []
    else if s[0] == '#' then
      var k := LineRest(s);
      assert s == s[..k] + s[k..];
      DropHashComments(s[k..])
    else
      assert s == [s[0]] + s[1..];
      [s[0]] + DropHashComments(s[1..])
  }

  /** The `#` pass keeps every newline, so the text keeps its line count. */
  lemma {:induction false} DropHashKeepsLines(s: string)
    ensures multiset(DropHashComments(s))['\n'] == multiset(s)['\n']
    decreases |s|
  {
    if s == [] {
    } else if s[0] == '#' {
      var k := LineRest(s);
      assert s == s[..k] + s[k..];
      assert '\n' !in s[..k];
      DropHashKeepsLines(s[k..]);
    } else {
      assert s == [s[0]] + s[1..];
      DropHashKeepsLines(s[1..]);
    }
  }

  /**
   * `re.sub(qqq + ".*?" + qqq, "", s, flags=re.DOTALL)` for the quote
   * character `q`: scanning left to right, a triple quote that has another
   * triple quote after it is deleted together with everything up to and
   * including the nearest such closing triple quote.
   */
  function DropTripleQuoted(s: string, q: char): (r: string)
    ensures |r| <= |s|
    ensures forall c :: c in r ==> c in s
    ensures !Contains(s, [q, q, q]) ==> r == s
    decreases |s|
  {
    if |s| < 3 then s
    else if s[..3] == [q, q, q] && IndexOf(s[3..], [q, q, q]).Some? then
      var close := IndexOf(s[3..], [q, q, q]).value;
      assert s[3 + close + 3..] == s[3..][close + 3..];
      assert forall c :: c in s[3 + close + 3..] ==> c in s;
      DropTripleQuoted(s[3 + close + 3..], q)
    else
      var rest := DropTripleQuoted(s[1..], q);
      ContainsInTail(s, [q, q, q]);
      assert forall c :: c in s[1..] ==> c in s;
      [s[0]] + rest
  }

  /** A pattern in the text after the first character is in the text. */
  lemma ContainsInTail(s: string, p: string)
    requires s != [] && |p| > 0
    ensures Contains(s[1..], p) ==> Contains(s, p)
  {
    if IndexOf(s[1..], p).Some? {
      var k := IndexOf(s[1..], p).value;
      assert s[k + 1..][..|p|] == s[1..][k..][..|p|];
      assert StartsWith(s[k + 1..], p);
    }
  }

  /**
   * `remove_comments`: anything but a string becomes "", otherwise `#` line
   * comments go first, then `"""` blocks, then `'''` blocks.
   */
  function RemoveComments(text: Cell): (r: string)
    ensures !text.Str? ==> r == []
    ensures text.Str? ==> |r| <= |text.s|
    ensures '#' !in r
    ensures text.Str? && '#' !in text.s && !Contains(text.s, "\"\"\"") && !Contains(text.s, "'''")
      ==> r == text.s
  {
    if !text.Str? then []
    else
      var noHash := DropHashComments(text.s);
      var noDouble := DropTripleQuoted(noHash, '"');
      DropTripleQuoted(noDouble, '\'')
  }

  /**
   * Because `#` comments are removed first, a docstring that contains a `#`
   * loses its closing quotes with the rest of that line and survives as an
   * unterminated opening `"""`.
   */
  lemma HashPassRunsFirst()
    ensures RemoveComments(Str("\"\"\"#\"\"\"")) == "\"\"\""
  {
    HashCutsDocstring("", "");
    assert "\"\"\"" + "" + "#" + "" + "\"\"\"" == "\"\"\"#\"\"\"";
    assert "\"\"\"" + "" == "\"\"\"";
    LoneTripleQuoteStays();
  }

  /**
   * The `#` pass removes the closing quotes of a one-line docstring whose
   * text holds a `#`, together with everything after that `#`.
   */
  lemma HashCutsDocstring(before: string, after: string)
    requires '#' !in before && '\n' !in before && '\n' !in after
    ensures DropHashComments("\"\"\"" + before + "#" + after + "\"\"\"") == "\"\"\"" + before
  {
    HashCutsLine("\"\"\"" + before, after, "\"\"\"");
  }

  /** Text without `#` survives, and a final comment line goes entirely. */
  lemma {:induction false} HashCutsLine(q: string, a: string, b: string)
    requires '#' !in q && '\n' !in a && '\n' !in b
    ensures DropHashComments(q + "#" + a + b) == q
    decreases |q|
  {
    var t := q + "#" + a + b;
    if q == [] {
      assert t == "#" + a + b;
      HashLineDropped(t);
    } else {
      assert t == [q[0]] + (q[1..] + "#" + a + b);
      KeptBeforeHash(q[0], q[1..] + "#" + a + b);
      HashCutsLine(q[1..], a, b);
    }
  }

  /** A character other than `#` is kept. */
  lemma KeptBeforeHash(c: char, t: string)
    requires c != '#'
    ensures DropHashComments([c] + t) == [c] + DropHashComments(t)
  {
    assert ([c] + t)[1..] == t;
  }

  /** A `#` with no newline after it takes the rest of the text with it. */
  lemma HashLineDropped(t: string)
    requires |t| > 0 && t[0] == '#' && '\n' !in t
    ensures DropHashComments(t) == []
  {
    assert LineRest(t) == |t|;
    assert t[|t|..] == [];
  }

  /** A lone triple quote has no closing partner, so neither quote pass removes it. */
  lemma LoneTripleQuoteStays()
    ensures DropTripleQuoted("\"\"\"", '"') == "\"\"\""
    ensures DropTripleQuoted("\"\"\"", '\'') == "\"\"\""
  {
    var q := "\"\"\"";
    assert q[3..] == [];
    assert IndexOf(q[3..], q) == None;
  }

  // ---------------------------------------------------------------------
  // special_char_ratio

  /** Matched by `[^a-zA-Z0-9\s]`. */
  predicate IsSpecial(c: char) {
    !IsAsciiAlnum(c) && !IsSpace(c)
  }

  function SpecialCount(s: string): (n: nat)
    ensures n <= |s|
    ensures n == 0 <==> forall i :: 0 <= i < |s| ==> !IsSpecial(s[i])
  {
    if s == [] then 0
    else
      assert forall i :: 1 <= i < |s| ==> s[i] == s[1..][i - 1];
      (if IsSpecial(s[0]) then 1 else 0) + SpecialCount(s[1..])
  }

  /** `special_char_ratio`: non-strings and blank strings count as all special. */
  function SpecialCharRatio(text: Cell): (r: Ratio)
    ensures 0 < r.den && r.num <= r.den
    ensures !text.Str? || IsBlank(text.s) ==> r == Ratio(1, 1)
    ensures text.Str? && !IsBlank(text.s) ==> r.den == |text.s| && r.num == SpecialCount(text.s)
    ensures text.Str? && !IsBlank(text.s) ==> (r.num == 0 <==> forall i :: 0 <= i < |text.s| ==> !IsSpecial(text.s[i]))
  {
    if !text.Str? || IsBlank(text.s) then Ratio(1, 1)
    else Ratio(SpecialCount(text.s), |text.s|)
  }

  // ---------------------------------------------------------------------
  // analysers

  datatype FunctionInfo = FunctionInfo(name: string, lineno: nat, endLineno: nat, hasDocstring: bool)
  datatype ClassInfo = ClassInfo(name: string, lineno: nat, endLineno: nat, bases: seq<Option<string>>, hasDocstring: bool)

  /** What the AST walk of `extract_code_structure_info` collects. */
  datatype AstFacts = AstFacts(
    functionDefinitions: seq<FunctionInfo>,
    classDefinitions: seq<ClassInfo>,
    imports: seq<string>,
    hasModuleDocstring: bool)

  const NoFacts := AstFacts([], [], [], false)

  /**
   * The external analysers. `None` stands for an exception raised by the
   * analyser (a syntax error, or `tree.body[0]` of an empty module).
   */
  datatype Analysers = Analysers(
    parses: string -> bool,
    maintainability: string -> Option<real>,
    blockComplexities: string -> Option<seq<nat>>,
    astFacts: string -> Option<AstFacts>)

  /** `check_syntax_error` */
  predicate HasSyntaxError(code: string, an: Analysers) {
    !an.parses(code)
  }

  /** `calculate_maintainability_index` */
  function MaintainabilityIndex(code: Cell, an: Analysers): (mi: real)
    ensures !code.Str? || IsBlank(code.s) ==> mi == 0.0
    ensures code.Str? && !IsBlank(code.s) ==> mi == match an.maintainability(code.s) { case Some(v) => v case None => 0.0 }
  {
    if !code.Str? || IsBlank(code.s) then 0.0
    else match an.maintainability(code.s)
      case Some(v) => v
      case None => 0.0
  }

  function Sum(xs: seq<nat>): (n: nat)
    ensures forall i :: 0 <= i < |xs| ==> xs[i] <= n
    ensures xs == [] ==> n == 0
  {
    if xs == [] then 0
    else
      assert forall i :: 1 <= i < |xs| ==> xs[i] == xs[1..][i - 1];
      xs[0] + Sum(xs[1..])
  }

  /** The total over two runs of blocks is the sum of their totals. */
  lemma {:induction false} SumAppend(a: seq<nat>, b: seq<nat>)
    ensures Sum(a + b) == Sum(a) + Sum(b)
  {
    if a != [] {
      assert (a + b)[1..] == a[1..] + b;
      SumAppend(a[1..], b);
    } else {
      assert a + b == b;
    }
  }

  /** `calculate_cyclomatic_complexity`: the sum over all blocks radon reports. */
  function CyclomaticComplexity(code: Cell, an: Analysers): (cc: nat)
    ensures !code.Str? || IsBlank(code.s) ==> cc == 0
    ensures code.Str? && !IsBlank(code.s) && an.blockComplexities(code.s).None? ==> cc == 0
    ensures code.Str? && !IsBlank(code.s) && an.blockComplexities(code.s).Some? ==>
      var blocks := an.blockComplexities(code.s).value;
      cc == Sum(blocks) && (forall i :: 0 <= i < |blocks| ==> blocks[i] <= cc) && (blocks == [] ==> cc == 0)
  {
    if !code.Str? || IsBlank(code.s) then 0
    else match an.blockComplexities(code.s)
      case Some(blocks) => Sum(blocks)
      case None => 0
  }

  // ---------------------------------------------------------------------
  // extract_code_structure_info

  datatype StructureInfo = StructureInfo(facts: AstFacts, numberOfLines: nat, commentLines: nat)
  {
    /** `comment_ratio`, 0 when there are no lines. */
    function CommentRatio(): (r: Ratio) {
      if numberOfLines > 0 then Ratio(commentLines, numberOfLines) else Ratio(0, 1)
    }
  }

  /** A line that, once stripped, opens with `#`, `"""` or `'''`. */
  predicate IsCommentLine(line: string) {
    var t := Strip(line);
    |t| > 0 && (t[0] == '#' || (|t| >= 3 && (t[0] == '"' || t[0] == '\'') && t[1] == t[0] && t[2] == t[0]))
  }

  function CountCommentLines(lines: seq<string>): (n: nat)
    ensures n <= |lines|
  {
    Streams.Count(lines, IsCommentLine)
  }

  /** The count is 0 exactly when no line is a comment line. */
  lemma CountCommentLinesZero(lines: seq<string>)
    ensures CountCommentLines(lines) == 0 <==> forall i :: 0 <= i < |lines| ==> !IsCommentLine(lines[i])
  {
    Streams.CountNone(lines, IsCommentLine);
  }

  /** The count is the number of lines exactly when every line is a comment line. */
  lemma CountCommentLinesAll(lines: seq<string>)
    ensures CountCommentLines(lines) == |lines| <==> forall i :: 0 <= i < |lines| ==> IsCommentLine(lines[i])
  {
    Streams.CountEvery(lines, IsCommentLine);
  }

  /** The comment lines of two runs of lines add up. */
  lemma CountCommentLinesAppend(a: seq<string>, b: seq<string>)
    ensures CountCommentLines(a + b) == CountCommentLines(a) + CountCommentLines(b)
  {
    Streams.CountAppend(a, b, IsCommentLine);
  }

  lemma CountCommentLinesSnoc(lines: seq<string>, i: nat)
    requires i < |lines|
    ensures CountCommentLines(lines[..i + 1]) == CountCommentLines(lines[..i]) + (if IsCommentLine(lines[i]) then 1 else 0)
  {
    assert lines[..i + 1][..i] == lines[..i];
  }

  /** The summary `extract_code_structure_info` returns. */
  function StructureInfoOf(code: Cell, an: Analysers): (info: StructureInfo)
    ensures info.commentLines <= info.numberOfLines
    ensures !code.Str? || IsBlank(code.s) ==> info == StructureInfo(NoFacts, 0, 0)
    ensures code.Str? && !IsBlank(code.s) ==> info.numberOfLines == |SplitLines(code.s)| > 0
    ensures code.Str? && !IsBlank(code.s) ==> info.commentLines == CountCommentLines(SplitLines(code.s))
    ensures code.Str? && !IsBlank(code.s) ==>
      info.facts == match an.astFacts(code.s) { case Some(f) => f case None => NoFacts }
    ensures info.CommentRatio().num <= info.CommentRatio().den
  {
    if !code.Str? || IsBlank(code.s) then StructureInfo(NoFacts, 0, 0)
    else
      var lines := SplitLines(code.s);
      var facts := match an.astFacts(code.s) { case Some(f) => f case None => NoFacts };
      StructureInfo(facts, |lines|, CountCommentLines(lines))
  }

  /** `extract_code_structure_info`, counting comment lines in one pass. */
  method ExtractCodeStructureInfo(code: Cell, an: Analysers) returns (info: StructureInfo)
    ensures info == StructureInfoOf(code, an)
  {
    if !code.Str? || IsBlank(code.s) {
      return StructureInfo(NoFacts, 0, 0);
    }
    var lines := SplitLines(code.s);
    var commentLines := 0;
    var i := 0;
    while i < |lines|
      invariant 0 <= i <= |lines|
      invariant commentLines == CountCommentLines(lines[..i])
    {
      CountCommentLinesSnoc(lines, i);
      if IsCommentLine(lines[i]) {
        commentLines := commentLines + 1;
      }
      i := i + 1;
    }
    assert lines[..i] == lines;
    var facts := match an.astFacts(code.s) { case Some(f) => f case None => NoFacts };
    info := StructureInfo(facts, |lines|, commentLines);
  }

  // ---------------------------------------------------------------------
  // preprocess_rule_1

  /** A loaded record: its `content` cell and every other column, untouched. */
  datatype RawRecord = RawRecord(content: Cell, extra: map<string, Cell>)

  /** A record after stage 1 adds `original_content_length`. */
  datatype Base = Base(content: Cell, originalLength: nat, extra: map<string, Cell>)

  function OriginalLength(c: Cell): (n: nat)
    ensures c.Str? ==> n == |c.s|
    ensures !c.Str? ==> n == 0
  {
    if c.Str? then |c.s| else 0
  }

  function Annotate(rows: seq<Row<RawRecord>>): (r: seq<Row<Base>>)
    ensures |r| == |rows|
    ensures forall i :: 0 <= i < |rows| ==>
      r[i] == Row(rows[i].index, Base(rows[i].rec.content, OriginalLength(rows[i].rec.content), rows[i].rec.extra))
  {
    seq(|rows|, i requires 0 <= i < |rows| =>
      Row(rows[i].index, Base(rows[i].rec.content, OriginalLength(rows[i].rec.content), rows[i].rec.extra)))
  }

  /** Survives `dropna(subset=["content"]).query("original_content_length > 0")`. */
  predicate HasContent(b: Base) {
    b.content.Str? && b.originalLength > 0
  }

  /**
   * `preprocess_rule_1`: a table without a `content` column raises
   * `KeyError`; otherwise exactly the rows whose content is a non-empty
   * string survive, in order, with labels reset to 0..n-1.
   */
  function PreprocessRule1(columns: set<string>, rows: seq<Row<RawRecord>>): (r: Result<seq<Row<Base>>, string>)
    ensures r.Err? <==> "content" !in columns
    ensures r.Ok? ==> IndexedFromZero(r.value) && |r.value| <= |rows|
    ensures r.Ok? ==> forall i :: 0 <= i < |r.value| ==>
      r.value[i].rec.content.Str? && r.value[i].rec.originalLength == |r.value[i].rec.content.s| > 0
    ensures r.Ok? ==> IsSubseq(Records(r.value), Records(Annotate(rows)))
    ensures r.Ok? ==> forall i :: 0 <= i < |rows| && rows[i].rec.content.Str? && rows[i].rec.content.s != [] ==>
      Annotate(rows)[i].rec in Records(r.value)
    ensures r.Ok? ==> Records(r.value) == Records(Where(Annotate(rows), HasContent))
  {
    if "content" !in columns then Err("'content' column is missing")
    else
      var annotated := Annotate(rows);
      var kept := Where(annotated, HasContent);
      SubseqRecords(kept, annotated);
      KeptRows(rows);
      Ok(Reindexed(kept))
  }

  /** The rows the content mask keeps: every one with content, and only those. */
  lemma KeptRows(rows: seq<Row<RawRecord>>)
    ensures var kept := Where(Annotate(rows), HasContent);
      (forall i :: 0 <= i < |rows| && rows[i].rec.content.Str? && rows[i].rec.content.s != [] ==>
        Annotate(rows)[i].rec in Records(kept))
      && |kept| <= |rows|
      && forall i :: 0 <= i < |kept| ==>
        kept[i].rec.content.Str? && kept[i].rec.originalLength == |kept[i].rec.content.s| > 0
  {
    var annotated := Annotate(rows);
    var kept := Where(annotated, HasContent);
    forall i | 0 <= i < |rows| && rows[i].rec.content.Str? && rows[i].rec.content.s != []
      ensures annotated[i].rec in Records(kept)
    {
      assert annotated[i] in annotated;
      var j :| 0 <= j < |kept| && kept[j] == annotated[i];
      assert Records(kept)[j] == annotated[i].rec;
    }
    SubseqMembers(kept, annotated);
    forall i | 0 <= i < |kept|
      ensures kept[i].rec.content.Str? && kept[i].rec.originalLength == |kept[i].rec.content.s| > 0
    {
      assert kept[i] in kept;
    }
  }

  /**
   * Stage 1 keeps one row for every row with non-empty string content, in
   * order, duplicates included: the j-th kept record is the annotated record
   * at the j-th such position.
   */
  lemma Rule1KeepsEveryRow(columns: set<string>, rows: seq<Row<RawRecord>>)
    requires "content" in columns
    ensures var flags := MaskOf(Annotate(rows), HasContent);
      var kept := PreprocessRule1(columns, rows).value;
      |kept| == |Streams.Positions(flags)|
      && forall j :: 0 <= j < |kept| ==> kept[j].rec == Annotate(rows)[Streams.Positions(flags)[j]].rec
  {
    var annotated := Annotate(rows);
    var flags := MaskOf(annotated, HasContent);
    WhereIsSelect(annotated, HasContent);
    SelectAtPositions(annotated, flags);
    var kept := PreprocessRule1(columns, rows).value;
    forall j | 0 <= j < |kept|
      ensures kept[j].rec == annotated[Streams.Positions(flags)[j]].rec
    {
      assert kept[j].rec == Records(kept)[j] == Records(Where(annotated, HasContent))[j];
    }
  }

  /** Without a non-empty string of code in any row, stage 1 keeps nothing. */
  lemma Rule1EmptyWithoutCode(columns: set<string>, rows: seq<Row<RawRecord>>)
    requires "content" in columns
    requires forall i :: 0 <= i < |rows| ==> !rows[i].rec.content.Str? || rows[i].rec.content.s == []
    ensures PreprocessRule1(columns, rows) == Ok([])
  {
  }

  // ---------------------------------------------------------------------
  // preprocess_rule_2

  datatype Metrics = Metrics(
    specialRatio: Ratio,
    cleanContent: string,
    contentLength: nat,
    isSyntaxError: bool,
    maintainabilityIndex: real,
    cyclomaticComplexity: nat,
    structure: StructureInfo)

  /** A record after stage 2 adds its measurements. */
  datatype Enriched = Enriched(base: Base, metrics: Metrics)

  /**
   * The columns stage 2 adds to one record: the syntax check runs on the
   * comment-stripped text, the other measurements on the raw content.
   */
  function Enrich(b: Base, an: Analysers): Enriched {
    var clean := RemoveComments(b.content);
    Enriched(b, Metrics(
      SpecialCharRatio(b.content),
      clean,
      |clean|,
      HasSyntaxError(clean, an),
      MaintainabilityIndex(b.content, an),
      CyclomaticComplexity(b.content, an),
      StructureInfoOf(b.content, an)))
  }

  /** No two rows share a content. */
  predicate DistinctContents(rows: seq<Row<Base>>) {
    forall i, j :: 0 <= i < j < |rows| ==> rows[i].rec.content != rows[j].rec.content
  }

  /** No earlier row has the same content. */
  predicate IsFirstOccurrence(rows: seq<Row<Base>>, i: int)
    requires 0 <= i < |rows|
  {
    forall j :: 0 <= j < i ==> rows[j].rec.content != rows[i].rec.content
  }

  /**
   * `drop_duplicates(subset=["content"])`, with the contents in `seen`
   * already taken: keeps the first row of every content, in order.
   */
  function DropDuplicates(rows: seq<Row<Base>>, seen: set<Cell>): (r: seq<Row<Base>>)
    ensures IsSubseq(r, rows)
    ensures DistinctContents(r)
    ensures forall x :: x in r ==> x.rec.content !in seen
  {
    if rows == [] then []
    else
      var c := rows[0].rec.content;
      var tail := DropDuplicates(rows[1..], if c in seen then seen else seen + {c});
      assert rows == [rows[0]] + rows[1..];
      if c in seen then
        SubseqWeaken(tail, rows[1..], rows[0]);
        tail
      else
        var r := [rows[0]] + tail;
        assert r[1..] == tail;
        assert forall j :: 1 <= j < |r| ==> r[j] == tail[j - 1] && r[j] in tail;
        r
  }

  /** The first row of every content not already taken is kept. */
  lemma {:induction false} DropDuplicatesKeepsFirst(rows: seq<Row<Base>>, seen: set<Cell>, i: int)
    requires 0 <= i < |rows| && rows[i].rec.content !in seen && IsFirstOccurrence(rows, i)
    ensures rows[i] in DropDuplicates(rows, seen)
    decreases |rows|
  {
    var c := rows[0].rec.content;
    var next := if c in seen then seen else seen + {c};
    if i > 0 {
      assert rows[i] == rows[1..][i - 1];
      assert rows[0].rec.content != rows[i].rec.content;
      assert IsFirstOccurrence(rows[1..], i - 1) by {
        forall j | 0 <= j < i - 1 ensures rows[1..][j].rec.content != rows[1..][i - 1].rec.content {
          assert rows[1..][j] == rows[j + 1];
        }
      }
      DropDuplicatesKeepsFirst(rows[1..], next, i - 1);
    }
  }

  lemma {:induction false} DropDuplicatesOfDistinct(rows: seq<Row<Base>>, seen: set<Cell>)
    requires DistinctContents(rows)
    requires forall i :: 0 <= i < |rows| ==> rows[i].rec.content !in seen
    ensures DropDuplicates(rows, seen) == rows
  {
    if rows != [] {
      assert forall i :: 0 <= i < |rows| - 1 ==> rows[1..][i] == rows[i + 1];
      DropDuplicatesOfDistinct(rows[1..], seen + {rows[0].rec.content});
    }
  }

  lemma {:induction false} DistinctOfSubseq(a: seq<Row<Base>>, b: seq<Row<Base>>)
    requires IsSubseq(a, b) && DistinctContents(b)
    ensures DistinctContents(a)
    decreases |b|
  {
    if a != [] && b != [] {
      assert forall i :: 0 <= i < |b| - 1 ==> b[1..][i] == b[i + 1];
      if a[0] == b[0] {
        DistinctOfSubseq(a[1..], b[1..]);
        SubseqMembers(a[1..], b[1..]);
        forall i, j | 0 <= i < j < |a| ensures a[i].rec.content != a[j].rec.content {
          assert a[j] == a[1..][j - 1];
          if i == 0 {
            assert a[j] in b[1..];
            var k :| 0 <= k < |b[1..]| && b[1..][k] == a[j];
          } else {
            assert a[i] == a[1..][i - 1];
          }
        }
      } else {
        DistinctOfSubseq(a, b[1..]);
      }
    }
  }

  /** The stage 2 length floor `content_length >= min_len`. */
  predicate LongEnough(b: Base, minLen: int) {
    |RemoveComments(b.content)| >= minLen
  }

  /** The stage 1 records of the stage 2 rows. */
  function Bases(rows: seq<Row<Enriched>>): (bs: seq<Base>)
    ensures |bs| == |rows|
    ensures forall i :: 0 <= i < |rows| ==> bs[i] == rows[i].rec.base
  {
    seq(|rows|, i requires 0 <= i < |rows| => rows[i].rec.base)
  }

  /** The stage 2 rows with their added columns dropped again. */
  function AsBaseRows(rows: seq<Row<Enriched>>): (r: seq<Row<Base>>)
    ensures |r| == |rows|
    ensures forall i :: 0 <= i < |rows| ==> r[i] == Row(rows[i].index, rows[i].rec.base)
  {
    seq(|rows|, i requires 0 <= i < |rows| => Row(rows[i].index, rows[i].rec.base))
  }

  /** Attach the stage 2 measurements and reset the labels. */
  function EnrichAll(rows: seq<Row<Base>>, an: Analysers): (r: seq<Row<Enriched>>)
    ensures |r| == |rows| && IndexedFromZero(r)
    ensures forall i :: 0 <= i < |rows| ==> r[i].rec == Enrich(rows[i].rec, an)
    ensures Bases(r) == Records(rows)
  {
    seq(|rows|, i requires 0 <= i < |rows| => Row(i, Enrich(rows[i].rec, an)))
  }

  /**
   * `preprocess_rule_2`: drop duplicate contents (first kept), attach the
   * measurements, keep rows whose stripped length reaches `minLen`, reset
   * labels.
   */
  function PreprocessRule2(rows: seq<Row<Base>>, minLen: int, an: Analysers): (r: seq<Row<Enriched>>)
    ensures IndexedFromZero(r)
  {
    EnrichAll(Where(DropDuplicates(rows, {}), b => LongEnough(b, minLen)), an)
  }

  /** Stage 2 keeps at most the input rows, in their original order. */
  lemma PreprocessRule2Order(rows: seq<Row<Base>>, minLen: int, an: Analysers)
    ensures |PreprocessRule2(rows, minLen, an)| <= |rows|
    ensures IsSubseq(Bases(PreprocessRule2(rows, minLen, an)), Records(rows))
  {
    var unique := DropDuplicates(rows, {});
    var long := Where(unique, b => LongEnough(b, minLen));
    SubseqTrans(long, unique, rows);
    SubseqMembers(long, rows);
    SubseqRecords(long, rows);
  }

  /** No two rows stage 2 keeps share a content. */
  lemma PreprocessRule2Distinct(rows: seq<Row<Base>>, minLen: int, an: Analysers)
    ensures DistinctContents(AsBaseRows(PreprocessRule2(rows, minLen, an)))
  {
    var unique := DropDuplicates(rows, {});
    var long := Where(unique, b => LongEnough(b, minLen));
    var r := EnrichAll(long, an);
    DistinctOfSubseq(long, unique);
    assert forall i :: 0 <= i < |r| ==> AsBaseRows(r)[i].rec.content == long[i].rec.content;
  }

  /**
   * Every row stage 2 keeps carries the measurements of its own content, and
   * its comment-stripped length reaches the floor.
   */
  lemma PreprocessRule2Measured(rows: seq<Row<Base>>, minLen: int, an: Analysers)
    ensures var r := PreprocessRule2(rows, minLen, an);
      && (forall i :: 0 <= i < |r| ==> r[i].rec == Enrich(r[i].rec.base, an))
      && (forall i :: 0 <= i < |r| ==> r[i].rec.metrics.contentLength == |r[i].rec.metrics.cleanContent| >= minLen)
  {
    var unique := DropDuplicates(rows, {});
    var long := Where(unique, b => LongEnough(b, minLen));
    var r := EnrichAll(long, an);
    forall i | 0 <= i < |r| ensures r[i].rec.metrics.contentLength == |r[i].rec.metrics.cleanContent| >= minLen {
      assert long[i] in long;
    }
  }

  /** The first row of every content whose stripped length reaches the floor survives stage 2. */
  lemma PreprocessRule2KeepsFirst(rows: seq<Row<Base>>, minLen: int, an: Analysers, i: int)
    requires 0 <= i < |rows| && IsFirstOccurrence(rows, i) && LongEnough(rows[i].rec, minLen)
    ensures rows[i].rec in Bases(PreprocessRule2(rows, minLen, an))
  {
    var unique := DropDuplicates(rows, {});
    var long := Where(unique, b => LongEnough(b, minLen));
    DropDuplicatesKeepsFirst(rows, {}, i);
    assert rows[i] in long;
    var j :| 0 <= j < |long| && long[j] == rows[i];
    assert Bases(EnrichAll(long, an))[j] == rows[i].rec;
  }

  /** Running stage 2 on its own output changes nothing. */
  lemma Rule2Idempotent(rows: seq<Row<Base>>, minLen: int, an: Analysers)
    ensures PreprocessRule2(AsBaseRows(PreprocessRule2(rows, minLen, an)), minLen, an)
         == PreprocessRule2(rows, minLen, an)
  {
    var r := PreprocessRule2(rows, minLen, an);
    var b := AsBaseRows(r);
    PreprocessRule2Distinct(rows, minLen, an);
    DropDuplicatesOfDistinct(b, {});
    Rule2OutputLong(rows, minLen, an);
    WhereAllKept(b, x => LongEnough(x, minLen));
    Rule2OutputEnriched(rows, minLen, an);
  }

  /** Every row stage 2 keeps passes its own length floor. */
  lemma Rule2OutputLong(rows: seq<Row<Base>>, minLen: int, an: Analysers)
    ensures forall x :: x in AsBaseRows(PreprocessRule2(rows, minLen, an)) ==> LongEnough(x.rec, minLen)
  {
    var b := AsBaseRows(PreprocessRule2(rows, minLen, an));
    PreprocessRule2Measured(rows, minLen, an);
    forall x | x in b ensures LongEnough(x.rec, minLen) {
      var j :| 0 <= j < |b| && b[j] == x;
    }
  }

  /** Measuring stage 2's rows again gives the same rows. */
  lemma Rule2OutputEnriched(rows: seq<Row<Base>>, minLen: int, an: Analysers)
    ensures var r := PreprocessRule2(rows, minLen, an);
      EnrichAll(AsBaseRows(r), an) == r
  {
    PreprocessRule2Measured(rows, minLen, an);
  }
}
