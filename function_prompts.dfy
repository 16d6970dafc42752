/**
 * Instruction data from code split into functions
 * (`anthropic_prompt_by_function_from_original_code.py`): a document's code
 * is cut into top-level units, each unit is sent to the model for a user
 * request, and every (request, unit) pair becomes a chat record.
 *
 * `ast.parse` and the walk over its top-level nodes are the parameter
 * `collect` (the chunks in the order the walk appends them, or `None` on a
 * syntax error); the model is the parameter `llm` (its reply to a prompt,
 * after the meta-commentary patterns have been removed).
 */
module FunctionPrompts {
  import opened Wrappers
  import opened Text
  import opened Json
  import opened Streams
  import opened Chat
  import opened Generation

  // ---------------------------------------------------------------------------
  // get_node_source

  datatype NodeKind = FunctionDef | ClassDef | OtherNode

  /** What `get_node_source` reads of an AST node: 1-based line numbers, when present, and the decorators' lines. */
  datatype Node = Node(kind: NodeKind, lineno: Option<int>, endLineno: Option<int>, decorators: seq<Option<int>>)

  /** The 0-based start line moved up to the earliest decorator line above it. */
  function DecoratedStart(start: int, decorators: seq<Option<int>>): (r: int)
    ensures r <= start
    ensures forall k :: 0 <= k < |decorators| && decorators[k].Some? ==> r <= decorators[k].value - 1
    ensures r == start || exists k :: 0 <= k < |decorators| && decorators[k] == Some(r + 1)
  {
    if decorators == [] then start
    else
      var s := DecoratedStart(start, decorators[..|decorators| - 1]);
      var d := decorators[|decorators| - 1];
      if d.Some? && d.value - 1 < s then d.value - 1 else s
  }

  /** The indentation of a line: `len(line) - len(line.lstrip())`. */
  function Indent(line: string): nat {
    |line| - |LStrip(line)|
  }

  /** The indentation of each line, `None` for a blank line (which `get_node_source` skips). */
  function CodeIndents(lines: seq<string>): (os: seq<Option<nat>>)
    ensures |os| == |lines|
    ensures forall i :: 0 <= i < |lines| ==> os[i] == if Strip(lines[i]) == [] then None else Some(Indent(lines[i]))
  {
    seq(|lines|, i requires 0 <= i < |lines| => if Strip(lines[i]) == [] then None else Some(Indent(lines[i])))
  }

  /** `min(m, x)` where `None` is `inf`. */
  function MinOpt(m: Option<nat>, x: Option<nat>): (r: Option<nat>)
    ensures r.None? <==> m.None? && x.None?
    ensures r.Some? ==> (m.Some? ==> r.value <= m.value) && (x.Some? ==> r.value <= x.value)
    ensures r == m || r == x
  {
    match (m, x)
    case (None, _) => x
    case (_, None) => m
    case (Some(v), Some(w)) => if v <= w then m else x
  }

  /** The least present value, `None` standing for the `inf` start value of the `min` loop. */
  function MinSome(os: seq<Option<nat>>): (r: Option<nat>)
    ensures r.None? <==> forall i :: 0 <= i < |os| ==> os[i].None?
    ensures r.Some? ==> forall i :: 0 <= i < |os| && os[i].Some? ==> r.value <= os[i].value
    ensures r.Some? ==> exists i :: 0 <= i < |os| && os[i] == r
  {
    if os == [] then None
    else
      var n := |os| - 1;
      assert forall i :: 0 <= i < n ==> os[..n][i] == os[i];
      MinOpt(MinSome(os[..n]), os[n])
  }

  /** One more turn of the `min` loop. */
  lemma MinSomeSnoc(os: seq<Option<nat>>, k: nat)
    requires k < |os|
    ensures MinSome(os[..k + 1]) == MinOpt(MinSome(os[..k]), os[k])
  {
    assert os[..k + 1][..k] == os[..k];
  }

  /** The smallest indentation of the non-blank lines. */
  function MinIndent(lines: seq<string>): Option<nat> {
    MinSome(CodeIndents(lines))
  }

  /**
   * No minimum exactly when every line is blank; otherwise it is at most the
   * indentation of every non-blank line and equal to that of one of them.
   */
  lemma MinIndentMeaning(lines: seq<string>)
    ensures MinIndent(lines).None? <==> forall i :: 0 <= i < |lines| ==> Strip(lines[i]) == []
    ensures MinIndent(lines).Some? ==>
      forall i :: 0 <= i < |lines| && Strip(lines[i]) != [] ==> MinIndent(lines).value <= Indent(lines[i])
    ensures MinIndent(lines).Some? ==>
      exists i :: 0 <= i < |lines| && Strip(lines[i]) != [] && Indent(lines[i]) == MinIndent(lines).value
  {
    var os := CodeIndents(lines);
    if MinIndent(lines).Some? {
      var i :| 0 <= i < |os| && os[i] == MinSome(os);
      assert Strip(lines[i]) != [] && Indent(lines[i]) == MinIndent(lines).value;
    }
  }

  /** `line[min_indent:]` for every line. */
  function Dedent(lines: seq<string>, m: nat): (r: seq<string>)
    ensures |r| == |lines|
    ensures forall i :: 0 <= i < |lines| ==> r[i] == PySlice(lines[i], m, |lines[i]|)
  {
    seq(|lines|, i requires 0 <= i < |lines| => PySlice(lines[i], m, |lines[i]|))
  }

  /** The node's lines, from its (decorated) start to its end line. */
  function Extracted(node: Node, source: seq<string>): seq<string>
    requires node.lineno.Some? && node.endLineno.Some?
  {
    var start := if node.kind == OtherNode then node.lineno.value - 1
                 else DecoratedStart(node.lineno.value - 1, node.decorators);
    PySlice(source, start, node.endLineno.value)
  }

  /** `get_node_source` */
  function NodeSource(node: Node, source: seq<string>): string {
    if node.lineno.None? || node.endLineno.None? then ""
    else
      var lines := Extracted(node, source);
      if lines == [] then ""
      else
        match MinIndent(lines)
        case None => ""
        case Some(m) => Join("\n", Dedent(lines, m))
  }

  /** Cutting at most the indentation of a line removes only whitespace. */
  lemma DedentLine(l: string, m: nat)
    requires m <= Indent(l)
    ensures PySlice(l, m, |l|) == l[m..] && l == l[..m] + l[m..] && IsBlank(l[..m])
  {
    LStripDropsBlank(l);
    assert l[..m] == l[..Indent(l)][..m];
  }

  /** Cutting exactly the indentation of a non-blank line leaves it starting with a non-space. */
  lemma DedentLeast(l: string)
    requires Strip(l) != []
    ensures PySlice(l, Indent(l), |l|) != [] && !IsSpace(PySlice(l, Indent(l), |l|)[0])
  {
    assert PySlice(l, Indent(l), |l|) == LStrip(l);
  }

  /**
   * Dedenting keeps the line count and removes only indentation: each
   * non-blank line is its first `m` (blank) characters followed by its new
   * form, and some non-blank line starts at column 0 afterwards.
   */
  lemma DedentMeaning(lines: seq<string>, m: nat)
    requires MinIndent(lines) == Some(m)
    ensures |Dedent(lines, m)| == |lines|
    ensures forall i :: 0 <= i < |lines| && Strip(lines[i]) != [] ==>
      lines[i] == lines[i][..m] + Dedent(lines, m)[i] && IsBlank(lines[i][..m])
    ensures exists i :: 0 <= i < |lines| && Dedent(lines, m)[i] != [] && !IsSpace(Dedent(lines, m)[i][0])
  {
    MinIndentMeaning(lines);
    var d := Dedent(lines, m);
    forall i | 0 <= i < |lines| && Strip(lines[i]) != []
      ensures lines[i] == lines[i][..m] + d[i] && IsBlank(lines[i][..m])
    {
      DedentLine(lines[i], m);
    }
    var i :| 0 <= i < |lines| && Strip(lines[i]) != [] && Indent(lines[i]) == m;
    DedentLeast(lines[i]);
    assert d[i] == PySlice(lines[i], Indent(lines[i]), |lines[i]|);
  }

  /**
   * `get_node_source` gives the empty string for a node without line
   * numbers, and otherwise exactly when every line it covers is blank.
   */
  lemma NodeSourceEmpty(node: Node, source: seq<string>)
    ensures node.lineno.None? || node.endLineno.None? ==> NodeSource(node, source) == ""
    ensures node.lineno.Some? && node.endLineno.Some? ==>
      (IsBlank(NodeSource(node, source)) <==> forall i :: 0 <= i < |Extracted(node, source)| ==> Strip(Extracted(node, source)[i]) == [])
  {
    if node.lineno.Some? && node.endLineno.Some? {
      var lines := Extracted(node, source);
      MinIndentMeaning(lines);
      if lines != [] && MinIndent(lines).Some? {
        DedentedNotBlank(lines, MinIndent(lines).value);
      }
    }
  }

  /** Some line keeps a non-space character, so the joined result is not blank. */
  lemma DedentedNotBlank(lines: seq<string>, m: nat)
    requires MinIndent(lines) == Some(m)
    ensures !IsBlank(Join("\n", Dedent(lines, m)))
  {
    var d := Dedent(lines, m);
    var i := UnindentedLine(lines, m);
    assert IsSpace('\n');
    JoinBlank("\n", d);
  }

  /** A line that starts with a non-space once dedented. */
  lemma UnindentedLine(lines: seq<string>, m: nat) returns (i: nat)
    requires MinIndent(lines) == Some(m)
    ensures i < |lines| && !IsBlank(Dedent(lines, m)[i])
  {
    MinIndentMeaning(lines);
    i :| 0 <= i < |lines| && Strip(lines[i]) != [] && Indent(lines[i]) == m;
    DedentLeast(lines[i]);
  }

  /** The loop over `node.decorator_list`. */
  method EarliestDecorated(lineno: int, decorators: seq<Option<int>>) returns (start: int)
    ensures start == DecoratedStart(lineno - 1, decorators)
  {
    start := lineno - 1;
    for k := 0 to |decorators|
      invariant start == DecoratedStart(lineno - 1, decorators[..k])
    {
      assert decorators[..k + 1][..k] == decorators[..k];
      if decorators[k].Some? && decorators[k].value - 1 < start {
        start := decorators[k].value - 1;
      }
    }
    assert decorators[..|decorators|] == decorators;
  }

  /** The `min_indent` loop. */
  method SmallestIndent(lines: seq<string>) returns (minIndent: Option<nat>)
    ensures minIndent == MinIndent(lines)
  {
    ghost var os := CodeIndents(lines);
    minIndent := None;
    for k := 0 to |lines|
      invariant minIndent == MinSome(os[..k])
    {
      MinSomeSnoc(os, k);
      if Strip(lines[k]) != [] {
        var indent := Indent(lines[k]);
        minIndent := MinOpt(minIndent, Some(indent));
      }
    }
    assert os[..|lines|] == os;
  }

  /** `get_node_source` */
  method GetNodeSource(node: Node, source: seq<string>) returns (r: string)
    ensures r == NodeSource(node, source)
  {
    if node.lineno.None? || node.endLineno.None? {
      return "";
    }
    var start := node.lineno.value - 1;
    if node.kind != OtherNode {
      start := EarliestDecorated(node.lineno.value, node.decorators);
    }
    var lines := PySlice(source, start, node.endLineno.value);
    assert lines == Extracted(node, source);
    if lines == [] {
      return "";
    }
    var minIndent := SmallestIndent(lines);
    if minIndent.None? {
      return "";
    }
    r := Join("\n", Dedent(lines, minIndent.value));
  }

  // ---------------------------------------------------------------------------
  // The chunk filter of split_code_into_chunks

  /** The heads that keep a short chunk: `from `, `import `, `def `, `class `, `@`, `async def`. */
  predicate KeepsShort(s: string) {
    var t := LowerAscii(Strip(s));
    StartsWith(t, "from ") || StartsWith(t, "import ") || StartsWith(t, "def ")
    || StartsWith(t, "class ") || StartsWith(t, "@") || StartsWith(t, "async def")
  }

  /** A short chunk: under two triple quotes of either kind and under three lines. */
  predicate Short(s: string) {
    CountOf(s, "\"\"\"") < 2 && CountOf(s, "'''") < 2 && |SplitLines(s)| < 3
  }

  /** A shebang or an encoding line. */
  predicate Preamble(s: string) {
    StartsWith(s, "#!") || StartsWith(s, "# -*- coding")
  }

  /** A lone triple quote. */
  predicate LoneQuote(s: string) {
    s == "\"\"\"" || s == "'''"
  }

  /** One chunk of the filter loop: its stripped form, or `None` when it is skipped. */
  function ChunkKept(chunk: string): (r: Option<string>) {
    var s := Strip(chunk);
    if s == [] then None
    else if Preamble(s) || (Short(s) && !KeepsShort(s)) then None
    else if LoneQuote(s) then None
    else Some(s)
  }

  /**
   * A kept chunk is the stripped chunk, and is neither blank, nor a shebang
   * or encoding line, nor a short chunk without a code head, nor a lone
   * triple quote.
   */
  lemma ChunkKeptMeaning(chunk: string)
    ensures ChunkKept(chunk).Some? <==>
      !IsBlank(chunk) && !Preamble(Strip(chunk)) && !(Short(Strip(chunk)) && !KeepsShort(Strip(chunk)))
      && !LoneQuote(Strip(chunk))
    ensures ChunkKept(chunk).Some? ==> ChunkKept(chunk).value == Strip(chunk) && Strip(Strip(chunk)) == Strip(chunk)
  {
    StripIdempotent(chunk);
  }

  /** A chunk made of one character three times. */
  function Triple(q: char): string {
    [q, q, q]
  }

  /** Three characters that are no line break form one line. */
  lemma TripleOneLine(q: char)
    requires !IsLineBreak(q)
    ensures |SplitLines(Triple(q))| == 1
  {
    var t := Triple(q);
    assert t[1..][1..] == [q];
    assert FirstLineLength(t[1..][1..]) == 1;
    assert FirstLineLength(t[1..]) == 2;
    assert FirstLineLength(t) == 3;
    assert t[3..] == [];
  }

  /** A string starting with another character than the pattern does not start with it. */
  lemma FirstDiffers(t: string, p: string)
    requires t != [] && p != [] && t[0] != p[0]
    ensures !StartsWith(t, p)
  {
    if |p| <= |t| {
      assert t[..|p|][0] != p[0];
    }
  }

  /** Three quote characters are no code head once stripped and lower-cased. */
  lemma TripleNoHead(q: char)
    requires q == '"' || q == '\''
    ensures !KeepsShort(Triple(q))
  {
    var t := Triple(q);
    assert !IsSpace(q);
    StripOfTrimmed(t);
    var l := LowerAscii(t);
    assert l[0] == LowerChar(q) == q;
    FirstDiffers(l, "from ");
    FirstDiffers(l, "import ");
    FirstDiffers(l, "def ");
    FirstDiffers(l, "class ");
    FirstDiffers(l, "@");
    FirstDiffers(l, "async def");
  }

  /**
   * The lone-triple-quote test never decides anything: such a chunk is short
   * and has no code head, so the test before it has already skipped it.
   */
  lemma LoneQuoteAlreadySkipped(s: string)
    requires LoneQuote(s)
    ensures Short(s) && !KeepsShort(s)
  {
    var q: char := if s == "\"\"\"" then '"' else '\'';
    assert s == Triple(q);
    assert !IsLineBreak(q);
    TripleOneLine(q);
    TripleNoHead(q);
    CountOfBelowTwo(s, "\"\"\"");
    CountOfBelowTwo(s, "'''");
  }

  /** What every chunk yields. */
  function ChunkOutcomes(chunks: seq<string>): (os: seq<Option<string>>)
    ensures |os| == |chunks|
    ensures forall i :: 0 <= i < |chunks| ==> os[i] == ChunkKept(chunks[i])
  {
    seq(|chunks|, i requires 0 <= i < |chunks| => ChunkKept(chunks[i]))
  }

  /** `filtered_chunks` */
  function FilteredChunks(chunks: seq<string>): seq<string> {
    Somes(ChunkOutcomes(chunks))
  }

  /**
   * The filtered chunks are the kept chunks in their order: a value is in the
   * result exactly when some chunk is kept as it, and then it is a stripped,
   * non-blank chunk that is neither a preamble nor a lone triple quote.
   */
  lemma FilteredChunksMeaning(chunks: seq<string>)
    ensures |FilteredChunks(chunks)| <= |chunks|
    ensures forall c :: c in FilteredChunks(chunks) <==> exists i :: 0 <= i < |chunks| && ChunkKept(chunks[i]) == Some(c)
    ensures forall c :: c in FilteredChunks(chunks) ==>
      c != [] && Strip(c) == c && !Preamble(c) && !LoneQuote(c)
  {
    var os := ChunkOutcomes(chunks);
    SomesMembers(os);
    forall c | c in FilteredChunks(chunks)
      ensures exists i :: 0 <= i < |chunks| && ChunkKept(chunks[i]) == Some(c)
      ensures c != [] && Strip(c) == c && !Preamble(c) && !LoneQuote(c)
    {
      var i :| 0 <= i < |os| && os[i] == Some(c);
      ChunkKeptMeaning(chunks[i]);
    }
    forall c | exists i :: 0 <= i < |chunks| && ChunkKept(chunks[i]) == Some(c)
      ensures c in FilteredChunks(chunks)
    {
      var i :| 0 <= i < |chunks| && ChunkKept(chunks[i]) == Some(c);
      assert os[i] == Some(c);
    }
  }

  /** The filter loop of `split_code_into_chunks`. */
  method FilterChunks(chunks: seq<string>) returns (filtered: seq<string>)
    ensures filtered == FilteredChunks(chunks)
  {
    ghost var os := ChunkOutcomes(chunks);
    filtered := [];
    for k := 0 to |chunks|
      invariant filtered == Somes(os[..k])
    {
      SomesSnoc(os, k);
      var kept := ChunkKept(chunks[k]);
      if kept.Some? {
        filtered := filtered + [kept.value];
      }
    }
    assert os[..|chunks|] == os;
  }

  /**
   * `split_code_into_chunks`: nothing for blank code or a syntax error; the
   * filtered chunks of the walk otherwise, or the whole stripped code when
   * the filter leaves none.
   */
  function SplitCodeIntoChunks(code: string, collect: string -> Option<seq<string>>): seq<string> {
    var c := Strip(code);
    if c == [] then []
    else
      match collect(c)
      case None => []
      case Some(chunks) =>
        var f := FilteredChunks(chunks);
        if f == [] then [Strip(c)] else f
  }

  /**
   * No chunks exactly for blank code or a syntax error; otherwise the
   * filtered chunks, or the stripped code alone when none survives.
   */
  lemma SplitCodeMeaning(code: string, collect: string -> Option<seq<string>>)
    ensures SplitCodeIntoChunks(code, collect) == [] <==> IsBlank(code) || collect(Strip(code)).None?
    ensures !IsBlank(code) && collect(Strip(code)).Some? ==>
      var f := FilteredChunks(collect(Strip(code)).value);
      SplitCodeIntoChunks(code, collect) == if f == [] then [Strip(code)] else f
  {
    StripIdempotent(code);
  }

  // ---------------------------------------------------------------------------
  // process_code_to_jsonl_entries

  const CHUNK_PROMPT_HEAD: string :=
    "Given the following Python code snippet as output, please generate a natural user request (input) in English that describes its functionality and purpose:\n\n[CODE]\n"

  function ChunkPrompt(chunk: string): string {
    CHUNK_PROMPT_HEAD + chunk + "\n[/CODE]"
  }

  /** The limit on request plus code, `1500 * 4` characters. */
  const MAX_PAIR: nat := 6000

  /** A long licence or copyright block, skipped without asking the model. */
  predicate Boilerplate(s: string) {
    |s| > 500 && (Contains(s, "Copyright") || Contains(s, "License"))
  }

  /** The record one chunk yields, or `None` when it is skipped. */
  function ChunkEntry(chunk: string, llm: string -> string): (r: Option<Json>) {
    var s := Strip(chunk);
    if s == [] || Boilerplate(s) then None
    else
      var instruction := Unquote(llm(ChunkPrompt(s)));
      if instruction == [] || |instruction| + |s| > MAX_PAIR then None
      else Some(UserAssistant(instruction, s))
  }

  /**
   * A blank or boilerplate chunk yields no record. A record pairs a
   * non-empty, stripped request with the stripped, non-empty chunk, the two
   * within the length limit together; and every other chunk, one with a
   * non-empty request within the limit, does yield that record.
   */
  lemma ChunkEntryMeaning(chunk: string, llm: string -> string)
    ensures IsBlank(chunk) || Boilerplate(Strip(chunk)) ==> ChunkEntry(chunk, llm).None?
    ensures
      var s := Strip(chunk);
      var instruction := Unquote(llm(ChunkPrompt(s)));
      !IsBlank(chunk) && !Boilerplate(s) && instruction != [] && |instruction| + |s| <= MAX_PAIR ==>
        ChunkEntry(chunk, llm) == Some(UserAssistant(instruction, s))
    ensures ChunkEntry(chunk, llm).Some? ==>
      var s := Strip(chunk);
      var instruction := Unquote(llm(ChunkPrompt(s)));
      && ChunkEntry(chunk, llm).value == UserAssistant(instruction, s)
      && instruction != [] && Strip(instruction) == instruction
      && s != [] && Strip(s) == s
      && |instruction| + |s| <= MAX_PAIR
  {
    var s := Strip(chunk);
    if ChunkEntry(chunk, llm).Some? {
      var instruction := Unquote(llm(ChunkPrompt(s)));
      assert ChunkEntry(chunk, llm) == Some(UserAssistant(instruction, s));
      UnquoteStripped(llm(ChunkPrompt(s)));
      StripIdempotent(chunk);
    }
  }

  function EntryOutcomes(chunks: seq<string>, llm: string -> string): (os: seq<Option<Json>>)
    ensures |os| == |chunks|
    ensures forall i :: 0 <= i < |chunks| ==> os[i] == ChunkEntry(chunks[i], llm)
  {
    seq(|chunks|, i requires 0 <= i < |chunks| => ChunkEntry(chunks[i], llm))
  }

  /** `process_code_to_jsonl_entries` */
  function CodeEntries(code: string, collect: string -> Option<seq<string>>, llm: string -> string): seq<Json> {
    Somes(EntryOutcomes(SplitCodeIntoChunks(code, collect), llm))
  }

  /** The chunk loop of `process_code_to_jsonl_entries`. */
  method ProcessCodeToEntries(code: string, collect: string -> Option<seq<string>>, llm: string -> string)
    returns (entries: seq<Json>)
    ensures entries == CodeEntries(code, collect, llm)
  {
    var chunks := SplitCodeIntoChunks(code, collect);
    ghost var os := EntryOutcomes(chunks, llm);
    entries := [];
    for k := 0 to |chunks|
      invariant entries == Somes(os[..k])
    {
      SomesSnoc(os, k);
      var entry := ChunkEntry(chunks[k], llm);
      if entry.Some? {
        entries := entries + [entry.value];
      }
    }
    assert os[..|chunks|] == os;
  }

  /** Blank code or a syntax error yields no record. */
  lemma CodeEntriesNone(code: string, collect: string -> Option<seq<string>>, llm: string -> string)
    requires IsBlank(code) || collect(Strip(code)).None?
    ensures CodeEntries(code, collect, llm) == []
  {
    SplitCodeMeaning(code, collect);
  }

  // ---------------------------------------------------------------------------
  // The document loop of __main__

  /** The loop's bookkeeping: the processed ids, the ids appended to the processed-ID file, and the records produced. */
  datatype State = State(processed: set<string>, marked: seq<string>, entries: seq<Json>)

  /**
   * One document, given the records its content yields: an id already
   * processed is skipped; a document without content is marked processed;
   * otherwise it is marked only when it produced records, which join the
   * output.
   */
  function Visit(s: State, doc: Doc, produce: string -> seq<Json>): State {
    if doc.id in s.processed then s
    else if doc.content == [] then State(s.processed + {doc.id}, s.marked + [doc.id], s.entries)
    else
      var es := produce(doc.content);
      if es != [] then State(s.processed + {doc.id}, s.marked + [doc.id], s.entries + es) else s
  }

  /** The state after the documents, starting from the loaded ids. */
  function Visits(processed: set<string>, docs: seq<Doc>, produce: string -> seq<Json>): State {
    if docs == [] then State(processed, [], [])
    else Visit(Visits(processed, docs[..|docs| - 1], produce), docs[|docs| - 1], produce)
  }

  /** `process_code_to_jsonl_entries` as the records of a document's content. */
  function Producer(collect: string -> Option<seq<string>>, llm: string -> string): string -> seq<Json> {
    content => CodeEntries(content, collect, llm)
  }

  /**
   * The processed set is the loaded ids plus the marked ones; no id is marked
   * that was loaded, and none is marked twice.
   */
  lemma {:induction false} VisitsMarked(processed: set<string>, docs: seq<Doc>, produce: string -> seq<Json>)
    ensures var s := Visits(processed, docs, produce);
      && s.processed == processed + (set id | id in s.marked)
      && (forall id :: id in s.marked ==> id !in processed)
      && (forall i, j :: 0 <= i < j < |s.marked| ==> s.marked[i] != s.marked[j])
  {
    if docs != [] {
      var init := docs[..|docs| - 1];
      VisitsMarked(processed, init, produce);
      var s := Visits(processed, init, produce);
      var doc := docs[|docs| - 1];
      var t := Visits(processed, docs, produce);
      assert t == Visit(s, doc, produce);
      if t != s {
        assert doc.id !in s.processed;
        assert t.marked == s.marked + [doc.id];
        assert (set id | id in t.marked) == (set id | id in s.marked) + {doc.id};
      }
    }
  }

  /**
   * A document not yet processed is marked exactly when it has no content or
   * produced records, and the records it produced are appended to the output.
   */
  lemma VisitMarks(s: State, doc: Doc, produce: string -> seq<Json>)
    requires doc.id !in s.processed
    ensures var t := Visit(s, doc, produce);
      && (doc.id in t.processed <==> doc.content == [] || produce(doc.content) != [])
      && t.entries == s.entries + (if doc.content == [] then [] else produce(doc.content))
  {
  }

  /** An id once processed stays processed, and so does every document without content. */
  lemma {:induction false} VisitsGrow(processed: set<string>, docs: seq<Doc>, produce: string -> seq<Json>)
    ensures processed <= Visits(processed, docs, produce).processed
    ensures forall d :: d in docs && d.content == [] ==> d.id in Visits(processed, docs, produce).processed
  {
    if docs != [] {
      var init := docs[..|docs| - 1];
      VisitsGrow(processed, init, produce);
      assert forall d :: d in docs ==> d in init || d == docs[|docs| - 1];
    }
  }

  /** The document is passed over by `continue`: its id is already processed or it has no content. */
  predicate Skipped(processed: set<string>, doc: Doc) {
    doc.id in processed || doc.content == []
  }

  /**
   * The batches written inside the `__main__` loop and the buffer left after
   * it: a skipped document leaves both alone; any other one adds its records
   * to the buffer, and then the buffer check runs.
   */
  function Batching(loaded: set<string>, docs: seq<Doc>, produce: string -> seq<Json>): (r: (seq<seq<Json>>, seq<Json>))
    ensures FullBatches(r.0)
  {
    if docs == [] then ([], [])
    else
      var init := docs[..|docs| - 1];
      var doc := docs[|docs| - 1];
      var (batches, buffer) := Batching(loaded, init, produce);
      if Skipped(Visits(loaded, init, produce).processed, doc) then (batches, buffer)
      else Flushed(batches, buffer + produce(doc.content))
  }

  /** One more document, in the shape the loop takes it. */
  lemma VisitsStep(loaded: set<string>, docs: seq<Doc>, k: nat, produce: string -> seq<Json>)
    requires k < |docs|
    ensures Visits(loaded, docs[..k + 1], produce) == Visit(Visits(loaded, docs[..k], produce), docs[k], produce)
  {
    assert docs[..k + 1][..k] == docs[..k];
  }

  /** The batching after one more document, in the shape the loop takes it. */
  lemma BatchingStep(loaded: set<string>, docs: seq<Doc>, k: nat, produce: string -> seq<Json>)
    requires k < |docs|
    ensures Batching(loaded, docs[..k + 1], produce)
      == if Skipped(Visits(loaded, docs[..k], produce).processed, docs[k]) then Batching(loaded, docs[..k], produce)
         else Flushed(Batching(loaded, docs[..k], produce).0, Batching(loaded, docs[..k], produce).1 + produce(docs[k].content))
  {
    assert docs[..k + 1][..k] == docs[..k];
  }

  /** What the loop writes and keeps in its buffer is exactly what the documents produced, in order. */
  lemma {:induction false} BatchingCoversEntries(loaded: set<string>, docs: seq<Doc>, produce: string -> seq<Json>)
    ensures var (batches, buffer) := Batching(loaded, docs, produce);
      Flatten(batches) + buffer == Visits(loaded, docs, produce).entries
  {
    if docs != [] {
      var init := docs[..|docs| - 1];
      var doc := docs[|docs| - 1];
      BatchingCoversEntries(loaded, init, produce);
      var (batches, buffer) := Batching(loaded, init, produce);
      var s := Visits(loaded, init, produce);
      if !Skipped(s.processed, doc) {
        var es := produce(doc.content);
        var (batches', buffer') := Flushed(batches, buffer + es);
        assert Flatten(batches') + buffer' == (Flatten(batches) + buffer) + es;
        if es == [] {
          assert s.entries + es == s.entries;
        }
      }
    }
  }

  /**
   * The body of the `__main__` loop for one document, before the flush: the
   * bookkeeping moves as `Visit` says, from an output `done`, and `es` are
   * the records to append to the buffer, none for a skipped document.
   */
  method VisitDocument(processed: set<string>, marked: seq<string>, ghost done: seq<Json>,
                       doc: Doc, collect: string -> Option<seq<string>>, llm: string -> string)
    returns (processed': set<string>, marked': seq<string>, es: seq<Json>)
    ensures Visit(State(processed, marked, done), doc, Producer(collect, llm)) == State(processed', marked', done + es)
    ensures es == if Skipped(processed, doc) then [] else CodeEntries(doc.content, collect, llm)
  {
    processed', marked', es := processed, marked, [];
    if doc.id in processed {
      assert done + es == done;
      return;
    }
    if doc.content == [] {
      processed', marked' := processed + {doc.id}, marked + [doc.id];
      assert done + es == done;
      return;
    }
    es := ProcessCodeToEntries(doc.content, collect, llm);
    assert es == Producer(collect, llm)(doc.content);
    if es != [] {
      processed', marked' := processed + {doc.id}, marked + [doc.id];
    } else {
      assert done + es == done;
    }
  }

  /**
   * The `__main__` loop over the documents the cursor yields, with the
   * output buffer checked after every document that is not skipped, one
   * batch of `BATCH_SIZE` written at a time, and the remainder written at the
   * end. Every record produced is written once, in order; every write but
   * the last is a full batch.
   */
  method GenerateInstructions(loaded: set<string>, docs: seq<Doc>, collect: string -> Option<seq<string>>, llm: string -> string)
    returns (processed: set<string>, marked: seq<string>, writes: seq<seq<Json>>)
    ensures var s := Visits(loaded, docs, Producer(collect, llm));
      processed == s.processed && marked == s.marked && Flatten(writes) == s.entries
    ensures forall k :: 0 <= k < |writes| - 1 ==> |writes[k]| == BATCH_SIZE
    ensures forall k :: 0 <= k < |writes| ==> writes[k] != []
    ensures var (batches, buffer) := Batching(loaded, docs, Producer(collect, llm)); writes == batches + Remainder(buffer)
  {
    processed, marked := loaded, [];
    var buffer: seq<Json> := [];
    var batches: seq<seq<Json>> := [];
    for k := 0 to |docs|
      invariant var s := Visits(loaded, docs[..k], Producer(collect, llm)); processed == s.processed && marked == s.marked
      invariant Batching(loaded, docs[..k], Producer(collect, llm)) == (batches, buffer)
    {
      VisitsStep(loaded, docs, k, Producer(collect, llm));
      BatchingStep(loaded, docs, k, Producer(collect, llm));
      ghost var done := Visits(loaded, docs[..k], Producer(collect, llm)).entries;
      var skipped := Skipped(processed, docs[k]);
      var es;
      processed, marked, es := VisitDocument(processed, marked, done, docs[k], collect, llm);
      if skipped {
        assert buffer + es == buffer;
      } else {
        assert es == Producer(collect, llm)(docs[k].content);
      }
      buffer := buffer + es;
      if !skipped {
        batches, buffer := FlushFull(batches, buffer);
      }
    }
    assert docs[..|docs|] == docs;
    BatchingCoversEntries(loaded, docs, Producer(collect, llm));
    WritesShape(batches, buffer);
    writes := batches + Remainder(buffer);
  }
}
