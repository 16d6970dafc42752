/**
 * Turning chunked FIM samples into chat training records
 * (`reformat_fim_data_for_training.py`): the user turn shows the code with a
 * marker where the target was cut out, and the assistant turn answers with
 * the DeepSeek Coder FIM string inside a code fence. Only `messages` is kept.
 *
 * `json.loads` is the parameter `decode`; reading and writing the files is
 * not modelled.
 */
module FimReformat {
  import opened Wrappers
  import opened Text
  import opened Json
  import opened Streams
  import opened Fim
  import opened Chat

  const EOS_TOKEN: string := "<|EOT|>"

  /** The DeepSeek Coder tokens: full-width bars in the FIM tags, `<|EOT|>` at the end. */
  const TOKENS: Tokens := Tokens(FIM_BEGIN, FIM_HOLE, FIM_END, EOS_TOKEN)

  const INSTRUCTION: string := "Please complete the blank part of the following Python code:\n\n"
  const OPEN_FENCE: string := "```python\n"
  const MARK: string := "# (Complete the code here)\n"
  const CLOSE_USER: string := "```\n\n"
  const ANSWER_HEAD: string := "Yes, I have completed the code as requested. Here is the completed code:\n\n"
  const CLOSE_ANSWER: string := "\n```"

  /**
   * `record.get(key, "")` used in a string concatenation: a missing key is the
   * empty string, a string is itself, and any other value (null included)
   * raises, which skips the line.
   */
  function CodeField(fields: seq<Field>, key: string): (r: Option<string>)
    ensures r.Some? <==> Get(fields, key).None? || Get(fields, key).value.JStr?
    ensures r.Some? ==> Get(fields, key) == Some(JStr(r.value)) || (Get(fields, key).None? && r.value == [])
  {
    match Get(fields, key)
    case None => Some([])
    case Some(v) => if v.JStr? then Some(v.s) else None
  }

  /** The three code columns of a record, if each is a string or missing. */
  function SampleOf(fields: seq<Field>): (r: Option<Sample>)
    ensures r.Some? <==>
      CodeField(fields, "prefix_code").Some? && CodeField(fields, "target_code").Some? && CodeField(fields, "suffix_code").Some?
    ensures r.Some? ==>
      && Some(r.value.prefix) == CodeField(fields, "prefix_code")
      && Some(r.value.target) == CodeField(fields, "target_code")
      && Some(r.value.suffix) == CodeField(fields, "suffix_code")
  {
    match (CodeField(fields, "prefix_code"), CodeField(fields, "target_code"), CodeField(fields, "suffix_code"))
    case (Some(prefix), Some(target), Some(suffix)) => Some(Sample(prefix, target, suffix))
    case _ => None
  }

  /** A record without the three columns is the empty sample. */
  lemma MissingColumnsEmpty(fields: seq<Field>)
    requires !Has(fields, "prefix_code") && !Has(fields, "target_code") && !Has(fields, "suffix_code")
    ensures SampleOf(fields) == Some(Sample([], [], []))
  {
  }

  /** The user turn: the code with the marker where the target was. */
  function UserContent(s: Sample): string {
    INSTRUCTION + (OPEN_FENCE + (s.prefix + (MARK + (s.suffix + CLOSE_USER))))
  }

  /** The assistant turn: the FIM string inside a Python code fence. */
  function AssistantContent(s: Sample): string {
    ANSWER_HEAD + (OPEN_FENCE + (Assemble(TOKENS, s) + CLOSE_ANSWER))
  }

  /** The code inside the assistant turn's fence. */
  function FencedCode(content: string): (r: Option<string>)
    ensures r.Some? ==> content == ANSWER_HEAD + (OPEN_FENCE + (r.value + CLOSE_ANSWER))
  {
    Between(content, ANSWER_HEAD + OPEN_FENCE, CLOSE_ANSWER)
  }

  /**
   * The assistant turn carries the whole sample: the code in its fence
   * disassembles back to prefix, target and suffix, provided the prefix holds
   * no hole tag and the suffix no end tag.
   */
  lemma AssistantRecovers(s: Sample)
    requires OnlyAtEnd(s.prefix, FIM_HOLE) && OnlyAtEnd(s.suffix, FIM_END)
    ensures FencedCode(AssistantContent(s)).Some?
    ensures Disassemble(TOKENS, FencedCode(AssistantContent(s)).value) == Some(s)
  {
    var code := Assemble(TOKENS, s);
    assert AssistantContent(s) == (ANSWER_HEAD + OPEN_FENCE) + (code + CLOSE_ANSWER);
    BetweenWrapped(ANSWER_HEAD + OPEN_FENCE, code, CLOSE_ANSWER);
    DisassembleAssemble(TOKENS, s);
  }

  /**
   * The user turn is the code with the target replaced by the marker: putting
   * the target back in place of the first marker gives prefix, target and
   * suffix in their order, provided the marker does not occur earlier.
   */
  lemma UserFillsHole(s: Sample)
    requires OnlyAtEnd(INSTRUCTION + OPEN_FENCE + s.prefix, MARK)
    ensures ReplaceFirst(UserContent(s), MARK, s.target)
      == INSTRUCTION + OPEN_FENCE + s.prefix + s.target + s.suffix + CLOSE_USER
  {
    var head := INSTRUCTION + OPEN_FENCE + s.prefix;
    var rest := s.suffix + CLOSE_USER;
    assert UserContent(s) == head + MARK + rest;
    IndexOfAfter(head, MARK, rest);
    var u := head + MARK + rest;
    assert u[..|head|] == head;
    assert u[|head| + |MARK|..] == rest;
  }

  /** `{"messages": [user, assistant]}`: a new record, the original columns are not carried over. */
  function TrainingRecord(s: Sample): Json {
    MessagesJson([Message("user", UserContent(s)), Message("assistant", AssistantContent(s))])
  }

  /**
   * One input line: `None` when it is skipped (not JSON, not an object, or a
   * code column that is not a string).
   */
  function Convert(line: string, decode: string -> Option<Json>): (r: Option<Json>)
    ensures r.Some? <==> decode(line).Some? && decode(line).value.JObj? && SampleOf(decode(line).value.fields).Some?
    ensures r.Some? ==> r.value.JObj? && Keys(r.value.fields) == ["messages"]
    ensures r.Some? ==> r.value == TrainingRecord(SampleOf(decode(line).value.fields).value)
  {
    match decode(line)
    case None => None
    case Some(v) =>
      if !v.JObj? then None
      else
        match SampleOf(v.fields)
        case None => None
        case Some(s) => Some(TrainingRecord(s))
  }

  /** What every line yields. */
  function Outcomes(lines: seq<string>, decode: string -> Option<Json>): (os: seq<Option<Json>>)
    ensures |os| == |lines|
    ensures forall i :: 0 <= i < |lines| ==> os[i] == Convert(lines[i], decode)
  {
    seq(|lines|, i requires 0 <= i < |lines| => Convert(lines[i], decode))
  }

  /** `converted_data_entries` after the whole file. */
  function Converted(lines: seq<string>, decode: string -> Option<Json>): seq<Json> {
    Somes(Outcomes(lines, decode))
  }

  /**
   * One record per line that converts, in input order: each output record is
   * the conversion of some line, each converted line is output, and when no
   * line is skipped the `i`-th record comes from the `i`-th line.
   */
  lemma ConvertedMeaning(lines: seq<string>, decode: string -> Option<Json>)
    ensures |Converted(lines, decode)| <= |lines|
    ensures forall r :: r in Converted(lines, decode) <==> exists i :: 0 <= i < |lines| && Convert(lines[i], decode) == Some(r)
    ensures (forall i :: 0 <= i < |lines| ==> Convert(lines[i], decode).Some?) ==>
      |Converted(lines, decode)| == |lines|
      && forall i :: 0 <= i < |lines| ==> Converted(lines, decode)[i] == Convert(lines[i], decode).value
  {
    var os := Outcomes(lines, decode);
    SomesMembers(os);
    forall r | Some(r) in os ensures exists i :: 0 <= i < |lines| && Convert(lines[i], decode) == Some(r) {
      var i :| 0 <= i < |os| && os[i] == Some(r);
    }
    if forall i :: 0 <= i < |lines| ==> Convert(lines[i], decode).Some? {
      SomesAll(os);
    }
  }

  /** The `for line in infile` loop. */
  method ConvertLines(lines: seq<string>, decode: string -> Option<Json>) returns (entries: seq<Json>)
    ensures entries == Converted(lines, decode)
  {
    ghost var os := Outcomes(lines, decode);
    entries := [];
    for k := 0 to |lines|
      invariant entries == Somes(os[..k])
    {
      SomesSnoc(os, k);
      var record := Convert(lines[k], decode);
      if record.Some? {
        entries := entries + [record.value];
      }
    }
    assert os[..|lines|] == os;
  }
}
