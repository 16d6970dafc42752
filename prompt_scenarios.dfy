/**
 * Multi-turn fine-tuning scenarios built from code units (`prompt.py`): a
 * fill-in-the-middle request, an error-fix conversation around an injected
 * error, and a function-composition conversation.
 *
 * Every `random` call is a field of a draw: `randint(a, b)` is
 * `a + d % (b - a + 1)`, `choice(xs)` is `xs[d % |xs|]`, and
 * `random() < ratio` is a boolean.
 */
module PromptScenarios {
  import opened Wrappers
  import opened Text
  import opened Streams
  import opened Fim
  import opened Chat

  /** The "no error" answer of `inject_random_error`. */
  const NO_ERROR: string := "오류 없음"

  const INDENT_MSG: string := "IndentationError: unexpected indent. 들여쓰기 오류가 발생했습니다."
  const COLON_MSG: string := "SyntaxError: invalid syntax. 구문 오류 (콜론 누락)가 발생했습니다."
  const LIBRARY_MSG: string := "AttributeError: module 'os' has no attribute 'join'. 잘못된 라이브러리 함수 호출 오류입니다."
  const UNDECLARED_MSG: string := "NameError: name 'some_undefined_variable' is not defined. 선언되지 않은 변수를 사용했습니다."
  const UNDECLARED_LINE: string := "    print(some_undefined_variable)"

  function TypoMsg(word: string): string {
    "NameError: name '" + word + "' is not defined. 변수 이름에 오타가 있는 것 같습니다."
  }

  /** The five error types `random.choice` picks from. */
  datatype ErrorKind = Indentation | TypoVar | MissingColon | WrongLibraryCall | UndeclaredVar

  /** The random results of one `inject_random_error` call: error type, line, word and insertion point. */
  datatype ErrorDraw = ErrorDraw(kind: ErrorKind, line: nat, word: nat, insert: nat)

  /** A line an error may be injected into: not blank and not a comment. */
  predicate Injectable(line: string) {
    Strip(line) != [] && !StartsWith(Strip(line), "#")
  }

  /** `valid_lines_indices` */
  function InjectableLines(lines: seq<string>): (idx: seq<nat>)
    ensures forall j :: 0 <= j < |idx| ==> idx[j] < |lines| && Injectable(lines[idx[j]])
    ensures forall i :: 0 <= i < |lines| && Injectable(lines[i]) ==> i in idx
  {
    Positions(seq(|lines|, i requires 0 <= i < |lines| => Injectable(lines[i])))
  }

  /** `word[:-1] + word[-1] * 2`: the last character doubled. */
  function Typo(w: string): (r: string)
    requires w != []
    ensures |r| == |w| + 1 && r[..|w|] == w && r[|w|] == w[|w| - 1]
  {
    w + [w[|w| - 1]]
  }

  /** The line heads the missing-colon error applies to. */
  predicate ColonHead(line: string) {
    var t := Strip(line);
    StartsWith(t, "if ") || StartsWith(t, "for ") || StartsWith(t, "while ") || StartsWith(t, "def ") || StartsWith(t, "class ")
  }

  /**
   * The typo error: with more than one word, the first without "def" or
   * "class", the chosen word (if longer than two characters) gets its last
   * character doubled and the words are joined with single spaces.
   */
  function TypoLine(line: string, pick: nat): (r: Option<(string, string)>)
    ensures r.Some? ==> r.value.1 != NO_ERROR
  {
    var words := Words(line);
    if |words| > 1 && !Contains(words[0], "def") && !Contains(words[0], "class") then
      var k := pick % |words|;
      if |words[k]| > 2 then
        var typo := Typo(words[k]);
        assert TypoMsg(typo)[0] == 'N';
        Some((Join(" ", words[k := typo]), TypoMsg(typo)))
      else None
    else None
  }

  /** The missing-colon error: the first colon of a loop, branch or definition head removed. */
  function ColonLine(line: string): Option<string> {
    if ColonHead(line) && Contains(line, ":") then Some(ReplaceFirst(line, ":", "")) else None
  }

  /** The errors that rewrite the chosen line: the new line and the message, or `None` when the error does not apply. */
  function CorruptLine(line: string, d: ErrorDraw): (r: Option<(string, string)>)
    requires d.kind.Indentation? || d.kind.TypoVar? || d.kind.MissingColon?
    ensures r.Some? ==> r.value.1 != NO_ERROR
  {
    match d.kind
    case Indentation => Some(("    " + LStrip(line), INDENT_MSG))
    case TypoVar => TypoLine(line, d.word)
    case _ =>
      match ColonLine(line)
      case None => None
      case Some(l) => Some((l, COLON_MSG))
  }

  /**
   * The line-level errors on line `i`: the corrupted lines and the message,
   * or `None` when the chosen error does not apply (the wrong-library error
   * works on the whole code and is not a line-level one).
   */
  function CorruptLines(lines: seq<string>, i: nat, d: ErrorDraw): (r: Option<(seq<string>, string)>)
    requires i < |lines|
    ensures r.Some? ==> r.value.1 != NO_ERROR
  {
    if d.kind.UndeclaredVar? then
      var k := d.insert % (|lines| + 1);
      Some((lines[..k] + [UNDECLARED_LINE] + lines[k..], UNDECLARED_MSG))
    else if d.kind.WrongLibraryCall? then None
    else
      match CorruptLine(lines[i], d)
      case None => None
      case Some((line, message)) => Some((lines[i := line], message))
  }

  /**
   * `inject_random_error`: the corrupted code and the error message, or the
   * code itself with the no-error answer.
   */
  function InjectRandomError(code: string, d: ErrorDraw): (r: (string, string))
    ensures r.1 == NO_ERROR ==> r.0 == code
    ensures SplitLines(code) == [] || InjectableLines(SplitLines(code)) == [] ==> r == (code, NO_ERROR)
  {
    var lines := SplitLines(code);
    if lines == [] then (code, NO_ERROR)
    else
      var valid := InjectableLines(lines);
      if valid == [] then (code, NO_ERROR)
      else if d.kind == WrongLibraryCall then
        if Contains(code, "import os") && Contains(code, "os.path.join") then
          var corrupted := ReplaceFirst(code, "os.path.join", "os.join");
          if corrupted != code then (corrupted, LIBRARY_MSG) else (code, NO_ERROR)
        else (code, NO_ERROR)
      else
        match CorruptLines(lines, valid[d.line % |valid|], d)
        case None => (code, NO_ERROR)
        case Some((corrupted, message)) => (Join("\n", corrupted), message)
  }

  /**
   * The indentation, typo and missing-colon errors change the chosen line and
   * no other.
   */
  lemma LineErrorOnlyLine(lines: seq<string>, i: nat, d: ErrorDraw)
    requires i < |lines| && (d.kind.Indentation? || d.kind.TypoVar? || d.kind.MissingColon?)
    ensures var r := CorruptLines(lines, i, d);
      && (r.Some? <==> CorruptLine(lines[i], d).Some?)
      && (r.Some? ==>
        && |r.value.0| == |lines|
        && r.value.0[i] == CorruptLine(lines[i], d).value.0
        && forall j :: 0 <= j < |lines| && j != i ==> r.value.0[j] == lines[j])
  {
  }

  /** The indentation error always applies and makes the line four spaces followed by its `lstrip`. */
  lemma IndentationLine(line: string, d: ErrorDraw)
    requires d.kind.Indentation?
    ensures CorruptLine(line, d) == Some(("    " + LStrip(line), INDENT_MSG))
    ensures LStrip(CorruptLine(line, d).value.0) == LStrip(line)
  {
    var x := LStrip(line);
    assert "    " + x == " " + (" " + (" " + (" " + x)));
    LStripSpace(" " + (" " + (" " + x)));
    LStripSpace(" " + (" " + x));
    LStripSpace(" " + x);
    LStripSpace(x);
  }

  /**
   * The typo error applies exactly when the line has more than one word, the
   * first without "def" or "class", and the chosen word is longer than two
   * characters; the new line's words are then the old ones with only the
   * chosen word misspelt.
   */
  lemma TypoVarWords(line: string, d: ErrorDraw)
    requires d.kind.TypoVar?
    ensures var r := CorruptLine(line, d);
      var words := Words(line);
      && (r.Some? <==> |words| > 1 && !Contains(words[0], "def") && !Contains(words[0], "class") && |words[d.word % |words|]| > 2)
      && (r.Some? ==> Words(r.value.0) == words[d.word % |words| := Typo(words[d.word % |words|])])
  {
    var words := Words(line);
    if |words| > 1 && !Contains(words[0], "def") && !Contains(words[0], "class") {
      var k := d.word % |words|;
      if |words[k]| > 2 {
        TypoIsWord(words[k]);
        var ws := words[k := Typo(words[k])];
        assert forall j :: 0 <= j < |ws| ==> IsWord(ws[j]) by {
          forall j | 0 <= j < |ws| ensures IsWord(ws[j]) {
            if j != k { assert ws[j] == words[j]; }
          }
        }
        WordsJoin(ws);
      }
    }
  }

  /** A misspelt word is still a word. */
  lemma TypoIsWord(w: string)
    requires IsWord(w)
    ensures IsWord(Typo(w))
  {
    assert forall j :: 0 <= j < |w| ==> Typo(w)[j] == w[j];
  }

  /**
   * The missing-colon error applies exactly to a line that starts with one of
   * the heads and holds a colon, and it removes the first colon only: putting
   * it back gives the line.
   */
  lemma MissingColonLine(line: string)
    ensures var r := ColonLine(line);
      && (r.Some? <==> ColonHead(line) && Contains(line, ":"))
      && (r.Some? ==>
        var p := IndexOf(line, ":").value;
        && |r.value| == |line| - 1
        && r.value[..p] + ":" + r.value[p..] == line
        && forall k :: 0 <= k < p ==> r.value[k] != ':')
  {
    if ColonHead(line) && Contains(line, ":") {
      RemoveFirst(line, ':');
    }
  }

  /** The undeclared-variable error inserts exactly one line; removing it gives the lines back. */
  lemma UndeclaredVarInsert(lines: seq<string>, i: nat, d: ErrorDraw)
    requires i < |lines| && d.kind == UndeclaredVar
    ensures var r := CorruptLines(lines, i, d);
      var k := d.insert % (|lines| + 1);
      && r.Some? && |r.value.0| == |lines| + 1
      && r.value.0[k] == UNDECLARED_LINE
      && r.value.0[..k] + r.value.0[k + 1..] == lines
  {
    var k := d.insert % (|lines| + 1);
    var c := lines[..k] + [UNDECLARED_LINE] + lines[k..];
    assert c[..k] == lines[..k];
    assert c[k + 1..] == lines[k..];
    assert lines[..k] + lines[k..] == lines;
  }

  // ---------------------------------------------------------------------------
  // Fill-in-the-middle scenario

  /** The tokens of this script (not the DeepSeek ones). */
  const PROMPT_TOKENS: Tokens := Tokens("<|fim_start|>", "<|fim_hole|>", "<|fim_end|>", "<|eos_token|>")

  const FIM_SYSTEM: string := "You are an expert in Python code completion. Please accurately fill in the blank part of the given code."
  const FIM_REQUEST: string := "Please complete the blank part of the following Python code:\n\n"

  /** The random results of one `create_fim_scenario_from_unit` call. */
  datatype FimDraw = FimDraw(split: nat, hole: nat, split1: nat, split2: nat)

  /** A unit whose first line opens a function or class. */
  predicate IsHead(line: string) {
    StartsWith(Strip(line), "def ") || StartsWith(Strip(line), "class ")
  }

  function Min(a: int, b: int): int {
    if a < b then a else b
  }

  /** Prefix, target and suffix before stripping. */
  function RawParts(lines: seq<string>, d: FimDraw): Sample
    requires |lines| >= 3
  {
    if IsHead(lines[0]) then
      var body := Join("\n", lines[1..]);
      if |body| < 20 then Sample(lines[0] + "\n", body, "")
      else
        var split := d.split % |body|;
        var holeLength := |body| / 4 + d.hole % (|body| / 2 - |body| / 4 + 1);
        var end := Min(split + holeLength, |body|);
        Sample(lines[0] + "\n" + body[..split], body[split..end], body[end..])
    else
      var n := |lines|;
      var split1 := d.split1 % (n / 2 + 1);
      var split2 := split1 + 1 + d.split2 % (n - split1);
      Sample(Join("\n", lines[..split1]) + "\n", Join("\n", lines[split1..split2]), Join("\n", lines[split2..]) + "\n")
  }

  /**
   * For a function or class unit the hole lies in the body: prefix, target
   * and suffix put together are the head line, a newline and the body, and a
   * body shorter than 20 characters is the whole target.
   */
  lemma HeadPartsCover(lines: seq<string>, d: FimDraw)
    requires |lines| >= 3 && IsHead(lines[0])
    ensures var s := RawParts(lines, d);
      var body := Join("\n", lines[1..]);
      && s.prefix + s.target + s.suffix == lines[0] + "\n" + body
      && (|body| < 20 ==> s.target == body && s.suffix == [])
  {
    var body := Join("\n", lines[1..]);
    var head := lines[0] + "\n";
    if |body| >= 20 {
      var split := d.split % |body|;
      var holeLength := |body| / 4 + d.hole % (|body| / 2 - |body| / 4 + 1);
      var end := Min(split + holeLength, |body|);
      assert RawParts(lines, d) == Sample(head + body[..split], body[split..end], body[end..]);
      ThreeCuts(head, body, split, end);
    }
  }

  /** Cutting a text at `i <= j` and putting the pieces back together gives the text. */
  lemma ThreeCuts(head: string, body: string, i: nat, j: nat)
    requires i <= j <= |body|
    ensures head + body[..i] + body[i..j] + body[j..] == head + body
  {
    assert body[..i] + body[i..j] + body[j..] == body;
    assert head + body[..i] + body[i..j] + body[j..] == head + (body[..i] + body[i..j] + body[j..]);
  }

  /** The stripped parts, or `None` for fewer than three lines or a blank target. */
  function FimParts(code: string, d: FimDraw): (r: Option<Sample>)
    ensures r.Some? ==> r.value.target != []
  {
    var lines := SplitLines(code);
    if |lines| < 3 then None
    else
      var raw := RawParts(lines, d);
      var s := Sample(Strip(raw.prefix), Strip(raw.target), Strip(raw.suffix));
      if s.target == [] then None else Some(s)
  }

  /**
   * No scenario for fewer than three lines or a blank target; otherwise the
   * three parts are stripped and the target is not empty.
   */
  lemma FimPartsMeaning(code: string, d: FimDraw)
    ensures var r := FimParts(code, d);
      && (r.None? <==> |SplitLines(code)| < 3 || IsBlank(RawParts(SplitLines(code), d).target))
      && (r.Some? ==> Strip(r.value.prefix) == r.value.prefix && Strip(r.value.target) == r.value.target
                      && Strip(r.value.suffix) == r.value.suffix)
  {
    var lines := SplitLines(code);
    if |lines| >= 3 {
      var raw := RawParts(lines, d);
      StripIdempotent(raw.prefix);
      StripIdempotent(raw.target);
      StripIdempotent(raw.suffix);
    }
  }

  function FimUserRequest(s: Sample): string {
    FIM_REQUEST + "```python\n" + s.prefix + "\n# (Please complete the code here)\n" + s.suffix + "\n```"
  }

  /** `create_fim_scenario_from_unit`: system, user and assistant turns. */
  function FimScenario(code: string, d: FimDraw): Option<seq<Message>> {
    match FimParts(code, d)
    case None => None
    case Some(s) => Some([Message("system", FIM_SYSTEM), Message("user", FimUserRequest(s)),
                          Message("assistant", Assemble(PROMPT_TOKENS, s))])
  }

  /**
   * The assistant turn carries the stripped parts: it disassembles back to
   * them, provided the prefix holds no hole token and the suffix no end token.
   */
  lemma FimScenarioRecovers(code: string, d: FimDraw)
    requires FimParts(code, d).Some?
    requires OnlyAtEnd(FimParts(code, d).value.prefix, PROMPT_TOKENS.hole)
    requires OnlyAtEnd(FimParts(code, d).value.suffix, PROMPT_TOKENS.end)
    ensures FimScenario(code, d).Some?
    ensures Disassemble(PROMPT_TOKENS, FimScenario(code, d).value[2].content) == FimParts(code, d)
  {
    DisassembleAssemble(PROMPT_TOKENS, FimParts(code, d).value);
  }

  // ---------------------------------------------------------------------------
  // Function names and the composition scenario

  /** `code.split('(')[0].replace('def ', '').strip()` */
  function FuncName(code: string): string {
    Strip(ReplaceAll(SplitOn(code, '(')[0], "def ", ""))
  }

  /**
   * For `def name(...)` the name is recovered, when it is stripped and holds
   * neither a parenthesis nor "def ".
   */
  lemma FuncNameOfDef(name: string, rest: string)
    requires forall i :: 0 <= i < |name| ==> name[i] != '('
    requires !Contains(name, "def ")
    requires name == [] || (!IsSpace(name[0]) && !IsSpace(name[|name| - 1]))
    ensures FuncName("def " + name + "(" + rest) == name
  {
    var head := "def " + name;
    assert forall i :: 0 <= i < |head| ==> head[i] != '(';
    SplitOnFirst(head, '(', rest);
    assert "def " + name + "(" + rest == head + ['('] + rest;
    assert StartsWith(head, "def ") && head[4..] == name;
    ReplaceAllAbsent(name, "def ", "");
    StripOfTrimmed(name);
  }

  /** The candidates `random.sample` drew are two function definitions, different, of more than five lines each. */
  predicate Composable(a: string, b: string) {
    StartsWith(Strip(a), "def ") && StartsWith(Strip(b), "def ") && a != b
    && |SplitLines(a)| > 5 && |SplitLines(b)| > 5
  }

  // ---------------------------------------------------------------------------
  // The generation loop

  /**
   * A generated scenario. The error-fix and composition conversations are
   * kept as the values their fixed Korean templates are filled with.
   */
  datatype Scenario =
    | FimCase(messages: seq<Message>)
    | ErrorFix(corrupted: string, error: string, original: string)
    | Composition(nameA: string, nameB: string, codeA: string, codeB: string)

  predicate IsFimCase(s: Scenario) { s.FimCase? }
  predicate IsErrorFix(s: Scenario) { s.ErrorFix? }
  predicate IsComposition(s: Scenario) { s.Composition? }

  /** `create_error_fix_multi_turn`: nothing when no error was injected. */
  function ErrorFixScenario(unit: string, d: ErrorDraw): (r: Option<Scenario>)
    ensures r.Some? ==> r.value.ErrorFix? && r.value.original == unit && r.value.error != NO_ERROR
  {
    var (corrupted, message) := InjectRandomError(unit, d);
    if message == NO_ERROR then None else Some(ErrorFix(corrupted, message, unit))
  }

  /**
   * The random results for one unit: the three `random() < ratio` rolls, the
   * draws of the FIM and error scenarios, and the two positions
   * `random.sample` picks.
   */
  datatype UnitDraw = UnitDraw(fim: bool, fimDraw: FimDraw, error: bool, errorDraw: ErrorDraw,
                               complex: bool, pickA: nat, pickB: nat)

  /** Two different positions among `n >= 2`. */
  function Picks(n: nat, d: UnitDraw): (r: (nat, nat))
    requires n >= 2
    ensures r.0 < n && r.1 < n && r.0 != r.1
  {
    var a := d.pickA % n;
    (a, (a + 1 + d.pickB % (n - 1)) % n)
  }

  function FimPart(unit: string, d: UnitDraw): (r: seq<Scenario>)
    ensures r == [] || (|r| == 1 && r[0].FimCase?)
  {
    if !d.fim then []
    else
      match FimScenario(unit, d.fimDraw)
      case None => []
      case Some(messages) => [FimCase(messages)]
  }

  /** An error-fix conversation around an error injected into `unit`. */
  predicate FixOf(s: Scenario, unit: string) {
    s.ErrorFix? && s.original == unit && s.error != NO_ERROR
  }

  function ErrorPart(unit: string, d: UnitDraw): (r: seq<Scenario>)
    ensures r == [] || (|r| == 1 && FixOf(r[0], unit))
  {
    if !d.error then []
    else
      match ErrorFixScenario(unit, d.errorDraw)
      case None => []
      case Some(scenario) => [scenario]
  }

  /** A composition of two composable units, each named by its `def` line. */
  predicate ComposedPair(s: Scenario) {
    s.Composition? && Composable(s.codeA, s.codeB) && s.nameA == FuncName(s.codeA) && s.nameB == FuncName(s.codeB)
  }

  /** `create_function_composition_multi_turn` of two composable units. */
  function Compose(a: string, b: string): (s: Scenario)
    requires Composable(a, b)
    ensures ComposedPair(s) && s.codeA == a && s.codeB == b
  {
    Composition(FuncName(a), FuncName(b), a, b)
  }

  function ComplexPart(units: seq<string>, d: UnitDraw): (r: seq<Scenario>)
    ensures r == [] || (|r| == 1 && ComposedPair(r[0]))
  {
    if d.complex && |units| >= 2 then
      var p := Picks(|units|, d);
      var a, b := units[p.0], units[p.1];
      if Composable(a, b) then [Compose(a, b)] else []
    else []
  }

  /** What one unit adds, in the order the source appends. */
  function UnitScenarios(units: seq<string>, i: nat, d: UnitDraw): seq<Scenario>
    requires i < |units|
  {
    if IsBlank(units[i]) then []
    else FimPart(units[i], d) + ErrorPart(units[i], d) + ComplexPart(units, d)
  }

  /** Every unit adds at most one scenario of each kind, and a blank unit none. */
  lemma UnitScenariosCounts(units: seq<string>, i: nat, d: UnitDraw)
    requires i < |units|
    ensures var xs := UnitScenarios(units, i, d);
      && |xs| <= 3
      && (IsBlank(units[i]) ==> xs == [])
      && Count(xs, IsFimCase) <= 1 && Count(xs, IsErrorFix) <= 1 && Count(xs, IsComposition) <= 1
  {
    if !IsBlank(units[i]) {
      CountParts(FimPart(units[i], d), ErrorPart(units[i], d), ComplexPart(units, d));
    }
  }

  /** Every error fix a unit adds is about that unit, with an injected error. */
  lemma UnitErrorFixes(units: seq<string>, i: nat, d: UnitDraw)
    requires i < |units|
    ensures var xs := UnitScenarios(units, i, d);
      forall j :: 0 <= j < |xs| && xs[j].ErrorFix? ==> FixOf(xs[j], units[i])
  {
    if !IsBlank(units[i]) {
      PartsFixes(FimPart(units[i], d), ErrorPart(units[i], d), ComplexPart(units, d), units[i]);
    }
  }

  /** The error fixes of a unit's scenarios come from its error-fix part. */
  lemma PartsFixes(f: seq<Scenario>, e: seq<Scenario>, c: seq<Scenario>, unit: string)
    requires f == [] || (|f| == 1 && f[0].FimCase?)
    requires e == [] || (|e| == 1 && FixOf(e[0], unit))
    requires c == [] || (|c| == 1 && c[0].Composition?)
    ensures forall j :: 0 <= j < |f + e + c| && (f + e + c)[j].ErrorFix? ==> FixOf((f + e + c)[j], unit)
  {
    forall j | 0 <= j < |f + e + c| && (f + e + c)[j].ErrorFix? ensures FixOf((f + e + c)[j], unit) {
      ConcatAt3(f, e, c, j);
    }
  }

  /** What every unit adds. */
  function Outputs(units: seq<string>, draws: seq<UnitDraw>): (os: seq<seq<Scenario>>)
    requires |draws| == |units|
    ensures |os| == |units|
    ensures forall i :: 0 <= i < |units| ==> os[i] == UnitScenarios(units, i, draws[i])
  {
    seq(|units|, i requires 0 <= i < |units| => UnitScenarios(units, i, draws[i]))
  }

  /** `generated_data` after all the units. */
  function Generated(units: seq<string>, draws: seq<UnitDraw>): seq<Scenario>
    requires |draws| == |units|
  {
    Flatten(Outputs(units, draws))
  }

  /** The three counters printed at the end add up to the number of records written. */
  lemma {:induction false} CountsAddUp(xs: seq<Scenario>)
    ensures Count(xs, IsFimCase) + Count(xs, IsErrorFix) + Count(xs, IsComposition) == |xs|
  {
    if xs != [] {
      CountsAddUp(xs[..|xs| - 1]);
    }
  }

  /** One turn of the unit loop: what it appends and how much each counter grows. */
  method AddUnit(units: seq<string>, i: nat, d: UnitDraw) returns (part: seq<Scenario>, fims: nat, errors: nat, complexes: nat)
    requires i < |units|
    ensures part == UnitScenarios(units, i, d)
    ensures fims == Count(part, IsFimCase) && errors == Count(part, IsErrorFix) && complexes == Count(part, IsComposition)
  {
    var unit := units[i];
    if IsBlank(unit) {
      return [], 0, 0, 0;
    }
    var f := FimPart(unit, d);
    var e := ErrorPart(unit, d);
    var c := ComplexPart(units, d);
    part := f + e + c;
    fims, errors, complexes := |f|, |e|, |c|;
    CountParts(f, e, c);
  }

  /** The counters of a unit's part: one scenario per kind at most, each in its own part. */
  lemma CountParts(f: seq<Scenario>, e: seq<Scenario>, c: seq<Scenario>)
    requires f == [] || (|f| == 1 && f[0].FimCase?)
    requires e == [] || (|e| == 1 && e[0].ErrorFix?)
    requires c == [] || (|c| == 1 && c[0].Composition?)
    ensures Count(f + e + c, IsFimCase) == |f|
    ensures Count(f + e + c, IsErrorFix) == |e|
    ensures Count(f + e + c, IsComposition) == |c|
  {
    CountAppend(f + e, c, IsFimCase);
    CountAppend(f, e, IsFimCase);
    CountAppend(f + e, c, IsErrorFix);
    CountAppend(f, e, IsErrorFix);
    CountAppend(f + e, c, IsComposition);
    CountAppend(f, e, IsComposition);
    assert f == [] || f == [f[0]];
    assert e == [] || e == [e[0]];
    assert c == [] || c == [c[0]];
  }

  /**
   * The unit loop of `generate_finetuning_data`, over the shuffled units,
   * with its three counters.
   */
  method GenerateFinetuningData(units: seq<string>, draws: seq<UnitDraw>)
    returns (data: seq<Scenario>, numFim: nat, numError: nat, numComplex: nat)
    requires |draws| == |units|
    ensures data == Generated(units, draws)
    ensures numFim == Count(data, IsFimCase) && numError == Count(data, IsErrorFix) && numComplex == Count(data, IsComposition)
    ensures numFim + numError + numComplex == |data|
  {
    ghost var os := Outputs(units, draws);
    data := [];
    numFim, numError, numComplex := 0, 0, 0;
    for i := 0 to |units|
      invariant data == Flatten(os[..i])
      invariant numFim == Count(data, IsFimCase) && numError == Count(data, IsErrorFix) && numComplex == Count(data, IsComposition)
    {
      var part, fims, errors, complexes := AddUnit(units, i, draws[i]);
      FlattenSnoc(os, i);
      CountAppend(data, part, IsFimCase);
      CountAppend(data, part, IsErrorFix);
      CountAppend(data, part, IsComposition);
      data := data + part;
      numFim, numError, numComplex := numFim + fims, numError + errors, numComplex + complexes;
    }
    assert os[..|units|] == os;
    CountsAddUp(data);
  }
}
