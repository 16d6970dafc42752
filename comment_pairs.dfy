/**
 * Persona-styled fill-in-the-middle conversations (`comment.py`): a snippet is
 * cut into prefix, middle and suffix lines; the user turn shows prefix and
 * suffix around a hole tag and the assistant turn answers with the middle,
 * followed by the note the persona's output requirement asks for.
 *
 * `random.choice` and `random.randint` are the draws of a `Draw` sequence,
 * `json.loads` is `decode` and `ast.parse` succeeding is `valid`.
 */
module CommentPairs {
  import opened Wrappers
  import opened Text
  import opened Json
  import opened Streams
  import opened Fim
  import opened Chat

  /** `ord(c) < 128`, or one of the FIM tag characters. */
  predicate AllowedChar(c: char) {
    (c as int) < 128 || c == '<' || c == '>' || c == BAR
  }

  /** `is_allowed_text` on a value: false for a non-string. */
  predicate IsAllowedText(v: Json) {
    v.JStr? && AllowedString(v.s)
  }

  /** `is_allowed_text` on a string. */
  predicate AllowedString(s: string) {
    forall i :: 0 <= i < |s| ==> AllowedChar(s[i])
  }

  /** `is_allowed_text`: the character loop with its early `return False`. */
  method CheckAllowedText(v: Json) returns (ok: bool)
    ensures ok == IsAllowedText(v)
  {
    if !v.JStr? {
      return false;
    }
    var text := v.s;
    for i := 0 to |text|
      invariant forall j :: 0 <= j < i ==> AllowedChar(text[j])
    {
      var c := text[i];
      if (c as int) < 128 {
        continue;
      }
      if c == '<' || c == '>' || c == BAR {
        continue;
      }
      return false;
    }
    return true;
  }

  /** '<' and '>' are ASCII already: a string is allowed exactly when it is ASCII apart from U+FF5C. */
  lemma AllowedTextMeaning(s: string)
    ensures IsAllowedText(JStr(s)) <==> forall i :: 0 <= i < |s| ==> (s[i] as int) < 128 || s[i] == BAR
  {
    assert ('<' as int) < 128 && ('>' as int) < 128;
  }

  // ---------------------------------------------------------------------------
  // System prompt

  /** A persona from the template file, with string values. */
  type Persona = map<string, string>

  /** `persona.get(key, default)` */
  function Field(p: Persona, key: string, default: string): string {
    if key in p then p[key] else default
  }

  const DEFAULT_ROLE: string := "You are a helpful AI assistant."

  /** `build_system_prompt`: the four fields, separated by single spaces, stripped. */
  function SystemPrompt(p: Persona): string {
    JoinedFields(Field(p, "role_context", DEFAULT_ROLE), Field(p, "tone_context", ""),
                 Field(p, "task_instruction", ""), Field(p, "output_requirement", ""))
  }

  /** `" ".join([...]).strip()` of the four fields. */
  function JoinedFields(role: string, tone: string, task: string, output: string): string {
    Strip(role + " " + tone + " " + task + " " + output)
  }

  /** Stripping keeps every character up to the last non-whitespace one. */
  lemma RStripKeeps(s: string, k: nat)
    requires 0 < k <= |s| && !IsSpace(s[k - 1])
    ensures |RStrip(s)| >= k && RStrip(s)[..k] == s[..k]
  {
  }

  /**
   * Without a `role_context` the system prompt starts with the default role
   * sentence, and it never has whitespace at either end.
   */
  lemma SystemPromptDefaultRole(p: Persona)
    ensures var r := SystemPrompt(p);
      r == [] || (!IsSpace(r[0]) && !IsSpace(r[|r| - 1]))
    ensures "role_context" !in p ==> StartsWith(SystemPrompt(p), DEFAULT_ROLE)
  {
    if "role_context" !in p {
      assert !IsSpace(DEFAULT_ROLE[0]) && !IsSpace(DEFAULT_ROLE[|DEFAULT_ROLE| - 1]);
      JoinedKeepsHead(DEFAULT_ROLE, Field(p, "tone_context", ""), Field(p, "task_instruction", ""), Field(p, "output_requirement", ""));
    }
  }

  /** The four fields joined and stripped start with the first one, when that has no whitespace at its ends. */
  lemma JoinedKeepsHead(a: string, b: string, c: string, d: string)
    requires a != [] && !IsSpace(a[0]) && !IsSpace(a[|a| - 1])
    ensures StartsWith(JoinedFields(a, b, c, d), a)
  {
    var s := a + " " + b + " " + c + " " + d;
    assert s[..|a|] == a;
    assert LStrip(s) == s;
    RStripKeeps(s, |a|);
  }

  // ---------------------------------------------------------------------------
  // One conversation

  const INSTRUCTION: string := "Please complete the missing part of the following Python code snippet:\n\n"

  const EXPLANATION_MARK: string := "--- Explanation ---"
  const RATIONALE_MARK: string := "--- Rationale ---"
  const NOTES_MARK: string := "--- Notes ---"
  const COVERAGE_MARK: string := "--- Test Coverage ---"

  const EXPLANATION: string :=
    "\n\n--- Explanation ---\n"
    + "Of course! Here is the code to complete the snippet. "
    + "This part of the code is important because it handles the specific logic needed to continue the program's execution correctly. "
    + "Let me know if you have any more questions!"
  const RATIONALE: string :=
    "\n\n--- Rationale ---\n"
    + "I've completed the code following Python best practices. This implementation is both readable and efficient. "
    + "I chose this approach over others because it offers better clarity without a significant performance trade-off for this context."
  const NOTES: string :=
    "\n\n--- Notes ---\n"
    + "Here's the completed code. My approach was to fill in the missing logic "
    + "while maintaining the existing code style. This implementation is straightforward "
    + "and should be efficient enough for our use case. I considered a couple of alternatives, but this seemed the most readable."
  const COVERAGE: string :=
    "\n\n--- Test Coverage ---\n"
    + "The provided test case now covers the primary success path for this function. "
    + "Specifically, it asserts that the correct output is returned for a standard set of inputs. "
    + "I also added a check for a common edge case to ensure the function is robust."

  /** The note appended to the answer: the first marker found decides, none means no note. */
  function Note(req: string): string {
    if Contains(req, EXPLANATION_MARK) then EXPLANATION
    else if Contains(req, RATIONALE_MARK) then RATIONALE
    else if Contains(req, NOTES_MARK) then NOTES
    else if Contains(req, COVERAGE_MARK) then COVERAGE
    else []
  }

  /** The note is empty exactly when no marker is present, and otherwise belongs to the first marker present. */
  lemma NoteMeaning(req: string)
    ensures Note(req) == [] <==>
      !Contains(req, EXPLANATION_MARK) && !Contains(req, RATIONALE_MARK) && !Contains(req, NOTES_MARK) && !Contains(req, COVERAGE_MARK)
    ensures Note(req) in {[], EXPLANATION, RATIONALE, NOTES, COVERAGE}
    ensures Note(req) != [] ==> !IsBlank(Note(req))
  {
    assert EXPLANATION[2] == '-' && RATIONALE[2] == '-' && NOTES[2] == '-' && COVERAGE[2] == '-';
  }

  /** The user turn and the assistant turn of one conversation. */
  datatype Pair = Pair(user: string, answer: string)

  /** The user turn: the instruction, then the prefix and the suffix around the hole tag, inside the begin and end tags. */
  function UserPrompt(prefix: string, suffix: string): string {
    INSTRUCTION + FIM_BEGIN + prefix + FIM_HOLE + suffix + FIM_END
  }

  /**
   * The user turn can be read back: after the instruction and the begin tag,
   * the text up to the first hole tag is the prefix, and what follows is the
   * suffix and the end tag, provided the prefix holds no hole tag.
   */
  lemma UserPromptRecovers(prefix: string, suffix: string)
    requires OnlyAtEnd(prefix, FIM_HOLE)
    ensures var head := INSTRUCTION + FIM_BEGIN;
      && StartsWith(UserPrompt(prefix, suffix), head)
      && Partition(UserPrompt(prefix, suffix)[|head|..], FIM_HOLE) == Some((prefix, suffix + FIM_END))
  {
    var head := INSTRUCTION + FIM_BEGIN;
    var rest := prefix + FIM_HOLE + (suffix + FIM_END);
    assert UserPrompt(prefix, suffix) == head + rest;
    assert (head + rest)[..|head|] == head;
    assert (head + rest)[|head|..] == rest;
    PartitionAfter(prefix, FIM_HOLE, suffix + FIM_END);
  }

  /** The snippet's lines: `snippet.strip().split('\n')`. */
  function SnippetLines(snippet: string): (lines: seq<string>)
    ensures |lines| >= 1
  {
    SplitOn(Strip(snippet), '\n')
  }

  /** `randint` bounds for the cut: `1 <= start <= end <= len(lines) - 2`. */
  predicate CutFits(n: nat, start: nat, end: nat) {
    1 <= start <= end <= n - 2
  }

  /**
   * `create_conversation_pair` with its two `randint` results as `start` and
   * `end`; `None` when the stripped snippet has fewer than three lines.
   */
  function ConversationPair(snippet: string, p: Persona, start: nat, end: nat): (r: Option<Pair>)
    requires |SnippetLines(snippet)| >= 3 ==> CutFits(|SnippetLines(snippet)|, start, end)
    ensures r.None? <==> |SnippetLines(snippet)| < 3
  {
    var lines := SnippetLines(snippet);
    if |lines| < 3 then None
    else
      var prefix := Join("\n", lines[..start]);
      var codePart := Join("\n", lines[start..end + 1]);
      var suffix := Join("\n", lines[end + 1..]);
      Some(Pair(UserPrompt(prefix, suffix), codePart + Note(Field(p, "output_requirement", ""))))
  }

  /** The three line groups cover the lines in order, and prefix and suffix each get at least one line. */
  lemma CutCovers(lines: seq<string>, start: nat, end: nat)
    requires |lines| >= 3 && CutFits(|lines|, start, end)
    ensures lines[..start] + lines[start..end + 1] + lines[end + 1..] == lines
    ensures |lines[..start]| >= 1 && |lines[start..end + 1]| >= 1 && |lines[end + 1..]| >= 1
  {
  }

  /**
   * Filling the hole with the middle code gives back the stripped snippet:
   * prefix, middle and suffix joined by newlines are `snippet.strip()`.
   */
  lemma FillHoleRoundTrip(snippet: string, start: nat, end: nat)
    requires |SnippetLines(snippet)| >= 3 && CutFits(|SnippetLines(snippet)|, start, end)
    ensures var lines := SnippetLines(snippet);
      Join("\n", lines[..start]) + "\n" + Join("\n", lines[start..end + 1]) + "\n" + Join("\n", lines[end + 1..])
      == Strip(snippet)
  {
    var lines := SnippetLines(snippet);
    var a, b, c := lines[..start], lines[start..end + 1], lines[end + 1..];
    CutCovers(lines, start, end);
    JoinAppend("\n", a + b, c);
    JoinAppend("\n", a, b);
    assert Join("\n", lines) == Strip(snippet);
  }

  // ---------------------------------------------------------------------------
  // The generation loop

  /** `{"messages": [system, user, assistant]}` */
  datatype Record = Record(messages: seq<Message>)

  /** One turn's random results: the snippet, the persona and the two cut positions. */
  datatype Draw = Draw(snippet: nat, persona: nat, cutStart: nat, cutEnd: nat)

  /** The two `randint` calls for a snippet of `n >= 3` lines. */
  function Cut(n: nat, d: Draw): (r: (nat, nat))
    requires n >= 3
    ensures CutFits(n, r.0, r.1)
  {
    var start := 1 + d.cutStart % (n - 2);
    (start, start + d.cutEnd % (n - 1 - start))
  }

  predicate WellFormed(r: Record) {
    |r.messages| == 3
    && r.messages[0].role == "system" && r.messages[1].role == "user" && r.messages[2].role == "assistant"
    && !IsBlank(r.messages[2].content)
  }

  /** The record of a conversation, unless its answer is blank. */
  function RecordOf(system: string, pair: Pair): (r: Option<Record>)
    ensures r.Some? <==> !IsBlank(pair.answer)
    ensures r.Some? ==> WellFormed(r.value) && r.value.messages[2].content == pair.answer
  {
    if IsBlank(pair.answer) then None
    else Some(Record([Message("system", system), Message("user", pair.user), Message("assistant", pair.answer)]))
  }

  /** One turn of the `while` loop: the record it writes, if any. */
  function Attempt(snippets: seq<string>, personas: seq<Persona>, d: Draw): (r: Option<Record>)
    requires |snippets| > 0 && |personas| > 0
    ensures r.Some? ==> WellFormed(r.value)
  {
    var snippet := snippets[d.snippet % |snippets|];
    var p := personas[d.persona % |personas|];
    var n := |SnippetLines(snippet)|;
    if n < 3 then None
    else
      var (start, end) := Cut(n, d);
      RecordOf(SystemPrompt(p), ConversationPair(snippet, p, start, end).value)
  }

  /** The outcome of every turn. */
  function Attempts(snippets: seq<string>, personas: seq<Persona>, ds: seq<Draw>): (os: seq<Option<Record>>)
    requires |snippets| > 0 && |personas| > 0
    ensures |os| == |ds|
    ensures forall i :: 0 <= i < |ds| ==> os[i] == Attempt(snippets, personas, ds[i])
  {
    seq(|ds|, i requires 0 <= i < |ds| => Attempt(snippets, personas, ds[i]))
  }

  /** The records written after the turns `ds`: once `target` are written the loop stops. */
  function Generated(snippets: seq<string>, personas: seq<Persona>, target: nat, ds: seq<Draw>): (r: seq<Record>)
    requires |snippets| > 0 && |personas| > 0
  {
    Capped(Attempts(snippets, personas, ds), target)
  }

  /**
   * At most `target` records are written, they are the first `target`
   * successful turns (all of them if fewer succeed), and each is a system,
   * user, assistant conversation with a non-blank answer.
   */
  lemma GeneratedMeaning(snippets: seq<string>, personas: seq<Persona>, target: nat, ds: seq<Draw>)
    requires |snippets| > 0 && |personas| > 0
    ensures var all := Somes(Attempts(snippets, personas, ds));
      Generated(snippets, personas, target, ds) == all[..if |all| < target then |all| else target]
    ensures forall r :: r in Generated(snippets, personas, target, ds) ==> WellFormed(r)
  {
    var os := Attempts(snippets, personas, ds);
    CappedIsPrefix(os, target);
    CappedMembers(os, target);
    forall r | r in Generated(snippets, personas, target, ds) ensures WellFormed(r) {
      var i :| 0 <= i < |os| && os[i] == Some(r);
    }
  }

  /** The `while generated_count < target_count` loop, which takes one draw per turn. */
  method GenerateRecords(snippets: seq<string>, personas: seq<Persona>, target: nat, draws: seq<Draw>)
    returns (records: seq<Record>)
    requires |snippets| > 0 && |personas| > 0
    ensures records == Generated(snippets, personas, target, draws)
  {
    ghost var os := Attempts(snippets, personas, draws);
    records := [];
    var t := 0;
    while |records| < target && t < |draws|
      invariant t <= |draws|
      invariant records == Capped(os[..t], target)
    {
      CappedSnoc(os, target, t);
      var r := Attempt(snippets, personas, draws[t]);
      if r.Some? {
        records := records + [r.value];
      }
      t := t + 1;
    }
    CappedStays(os, target, t);
  }

  // ---------------------------------------------------------------------------
  // Loading

  /**
   * What one input line contributes to `valid_snippets`: `Some([])` when it is
   * skipped, `None` when `.get` or `ast.parse` raises outside the inner `try`,
   * which ends the whole run. `valid` stands for `ast.parse` succeeding.
   */
  function SnippetOf(line: string, decode: string -> Option<Json>, valid: string -> bool): (r: Option<seq<string>>)
    ensures r.Some? ==> |r.value| <= 1
    ensures r.Some? && r.value != [] ==> valid(r.value[0]) && AllowedString(r.value[0]) && r.value[0] != []
    ensures var c := ContentString(line, decode);
      c.Some? ==> r == if Loadable(c.value, valid) then Some([c.value]) else Some([])
    ensures r.Some? && r.value != [] ==> ContentString(line, decode).Some? && r.value == [ContentString(line, decode).value]
  {
    match decode(Strip(line))
    case None => Some([])
    case Some(data) =>
      if !data.JObj? then None
      else
        match Get(data.fields, "content")
        case None => Some([])
        case Some(snippet) =>
          if !Truthy(snippet) then Some([])
          else if !snippet.JStr? then None
          else if valid(snippet.s) && IsAllowedText(snippet) then Some([snippet.s])
          else Some([])
  }

  /** A snippet a line contributes is non-empty, parses and has only allowed characters. */
  lemma {:induction false} SnippetKept(line: string, decode: string -> Option<Json>, valid: string -> bool, s: string)
    requires SnippetOf(line, decode, valid).Some? && s in SnippetOf(line, decode, valid).value
    ensures s != [] && valid(s) && AllowedString(s)
  {
    assert s == SnippetOf(line, decode, valid).value[0];
  }

  /** The string under `content` when the line decodes to an object that holds one. */
  function ContentString(line: string, decode: string -> Option<Json>): Option<string> {
    match decode(Strip(line))
    case Some(JObj(fields)) =>
      (match Get(fields, "content")
       case Some(JStr(s)) => Some(s)
       case _ => None)
    case _ => None
  }

  /** A content string `valid_snippets` keeps: non-empty, parsable and of allowed characters. */
  predicate Loadable(s: string, valid: string -> bool) {
    s != [] && valid(s) && AllowedString(s)
  }

  /** The loadable content strings of the lines, in line order. */
  function LoadableContents(lines: seq<string>, decode: string -> Option<Json>, valid: string -> bool): (r: seq<string>)
    ensures forall s :: s in r ==> Loadable(s, valid)
    ensures forall k :: 0 <= k < |lines| && ContentString(lines[k], decode).Some? && Loadable(ContentString(lines[k], decode).value, valid) ==>
      ContentString(lines[k], decode).value in r
  {
    if lines == [] then []
    else
      var n := |lines| - 1;
      var prev := LoadableContents(lines[..n], decode, valid);
      var c := ContentString(lines[n], decode);
      assert forall k :: 0 <= k < n ==> lines[..n][k] == lines[k];
      if c.Some? && Loadable(c.value, valid) then prev + [c.value] else prev
  }

  /** What every line contributes. */
  function SnippetOuts(lines: seq<string>, decode: string -> Option<Json>, valid: string -> bool): (os: seq<Option<seq<string>>>)
    ensures |os| == |lines|
    ensures forall k :: 0 <= k < |lines| ==> os[k] == SnippetOf(lines[k], decode, valid)
  {
    seq(|lines|, k requires 0 <= k < |lines| => SnippetOf(lines[k], decode, valid))
  }

  /** The snippets loaded from the lines, or `None` if a line ended the run. */
  function Snippets(lines: seq<string>, decode: string -> Option<Json>, valid: string -> bool): Option<seq<string>> {
    Gather(SnippetOuts(lines, decode, valid))
  }

  /**
   * Loading fails exactly when some line raises; otherwise every loaded
   * snippet is a non-empty string that parses and has only allowed characters,
   * and the loaded snippets are exactly the loadable contents, in line order.
   */
  lemma SnippetsMeaning(lines: seq<string>, decode: string -> Option<Json>, valid: string -> bool)
    ensures Snippets(lines, decode, valid).None? <==> exists k :: 0 <= k < |lines| && SnippetOf(lines[k], decode, valid).None?
    ensures Snippets(lines, decode, valid).Some? ==>
      forall s :: s in Snippets(lines, decode, valid).value ==> s != [] && valid(s) && AllowedString(s)
    ensures Snippets(lines, decode, valid).Some? ==>
      Snippets(lines, decode, valid).value == LoadableContents(lines, decode, valid)
  {
    var os := SnippetOuts(lines, decode, valid);
    if k :| 0 <= k < |lines| && os[k].None? {
      GatherFails(os, k);
    } else {
      GatherAll(os);
      forall s | s in Gather(os).value ensures s != [] && valid(s) && AllowedString(s) {
        var k :| 0 <= k < |os| && s in os[k].value;
        SnippetKept(lines[k], decode, valid, s);
      }
      SnippetsInOrder(lines, decode, valid);
    }
  }

  /** Loaded snippets are the loadable contents of the lines, in line order. */
  lemma {:induction false} SnippetsInOrder(lines: seq<string>, decode: string -> Option<Json>, valid: string -> bool)
    requires Snippets(lines, decode, valid).Some?
    ensures Snippets(lines, decode, valid).value == LoadableContents(lines, decode, valid)
  {
    if lines != [] {
      var n := |lines| - 1;
      SnippetsSnoc(lines, decode, valid);
      SnippetsInOrder(lines[..n], decode, valid);
    }
  }

  /** Loading one more line appends what that line contributes. */
  lemma SnippetsSnoc(lines: seq<string>, decode: string -> Option<Json>, valid: string -> bool)
    requires lines != [] && Snippets(lines, decode, valid).Some?
    ensures var n := |lines| - 1;
      && Snippets(lines[..n], decode, valid).Some?
      && SnippetOf(lines[n], decode, valid).Some?
      && Snippets(lines, decode, valid).value == Snippets(lines[..n], decode, valid).value + SnippetOf(lines[n], decode, valid).value
  {
    var n := |lines| - 1;
    var os := SnippetOuts(lines, decode, valid);
    assert os[..n] == SnippetOuts(lines[..n], decode, valid);
  }

  /** `all(is_allowed_text(str(p.get(key, ''))) for key in p)`: only the values are checked. */
  predicate PersonaAllowed(p: Persona) {
    forall key :: key in p ==> AllowedString(p[key])
  }

  function AllowedPersonas(ps: seq<Persona>): (r: seq<Persona>)
    ensures forall i :: 0 <= i < |r| ==> PersonaAllowed(r[i])
    ensures forall p :: p in ps && PersonaAllowed(p) ==> p in r
    ensures |r| <= |ps|
  {
    if ps == [] then []
    else
      var prev := AllowedPersonas(ps[..|ps| - 1]);
      assert forall p :: p in ps ==> p in ps[..|ps| - 1] || p == ps[|ps| - 1];
      if PersonaAllowed(ps[|ps| - 1]) then prev + [ps[|ps| - 1]] else prev
  }

  /**
   * `generate_completed_dataset`: `None` when nothing is written (a line ended
   * the loading, or there is no snippet or no persona left), otherwise the records.
   */
  function Dataset(lines: seq<string>, decode: string -> Option<Json>, valid: string -> bool,
                   personas: seq<Persona>, target: nat, draws: seq<Draw>): (r: Option<seq<Record>>)
    ensures r.Some? ==> |r.value| <= target
  {
    match Snippets(lines, decode, valid)
    case None => None
    case Some(snippets) =>
      var allowed := AllowedPersonas(personas);
      if snippets == [] || allowed == [] then None
      else Some(Generated(snippets, allowed, target, draws))
  }

  /** The loading loop over the input lines; stops at the first line that raises. */
  method LoadSnippets(lines: seq<string>, decode: string -> Option<Json>, valid: string -> bool)
    returns (r: Option<seq<string>>)
    ensures r == Snippets(lines, decode, valid)
  {
    ghost var os := SnippetOuts(lines, decode, valid);
    var validSnippets: seq<string> := [];
    for k := 0 to |lines|
      invariant Gather(os[..k]) == Some(validSnippets)
    {
      var found := SnippetOf(lines[k], decode, valid);
      GatherSnoc(os, k, validSnippets);
      if found.None? {
        GatherFails(os, k);
        return None;
      }
      validSnippets := validSnippets + found.value;
    }
    assert os[..|lines|] == os;
    r := Some(validSnippets);
  }

  /** The persona filter loop. */
  method FilterPersonas(ps: seq<Persona>) returns (allowed: seq<Persona>)
    ensures allowed == AllowedPersonas(ps)
  {
    allowed := [];
    for k := 0 to |ps|
      invariant allowed == AllowedPersonas(ps[..k])
    {
      assert ps[..k + 1][..k] == ps[..k];
      var ok := true;
      var keys := ps[k].Keys;
      while keys != {}
        invariant keys <= ps[k].Keys
        invariant ok <==> forall key :: key in ps[k] && key !in keys ==> AllowedString(ps[k][key])
        decreases keys
      {
        var key :| key in keys;
        var allowedText := CheckAllowedText(JStr(ps[k][key]));
        ok := ok && allowedText;
        keys := keys - {key};
      }
      if ok {
        allowed := allowed + [ps[k]];
      }
    }
    assert ps[..|ps|] == ps;
  }

  /** `generate_completed_dataset`, with the file contents and random draws as inputs. */
  method GenerateCompletedDataset(lines: seq<string>, decode: string -> Option<Json>, valid: string -> bool,
                                  personas: seq<Persona>, target: nat, draws: seq<Draw>)
    returns (r: Option<seq<Record>>)
    ensures r == Dataset(lines, decode, valid, personas, target, draws)
  {
    var validSnippets := LoadSnippets(lines, decode, valid);
    if validSnippets.None? || validSnippets.value == [] {
      return None;
    }
    var allowedPersonas := FilterPersonas(personas);
    if allowedPersonas == [] {
      return None;
    }
    var records := GenerateRecords(validSnippets.value, allowedPersonas, target, draws);
    r := Some(records);
  }
}
