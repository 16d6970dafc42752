/**
 * Pulling the code out of chat records (`jsonl_code_extractor.py`): every
 * assistant message's content is cut into its fenced Python blocks, or taken
 * whole when it has none, and each block becomes a `{"code": ...}` record.
 *
 * `json.loads` is the parameter `decode`; an exception anywhere in the loop
 * ends the run before the output file is written, which the model gives as
 * `None`.
 */
module CodeExtractor {
  import opened Wrappers
  import opened Text
  import opened Json
  import opened Streams

  const FENCE: string := "```"
  const PLAIN_OPEN: string := "```\n"
  const PYTHON_OPEN: string := "```python\n"

  // ---------------------------------------------------------------------------
  // re.findall(r"```(?:python)?\n(.*?)```", text, re.DOTALL)

  /**
   * Where the body of a block opened at `i` starts: after "```python\n", or
   * after "```\n". The optional group is tried first, and giving it up
   * cannot help once "python" follows the fence, since "\n" is then needed
   * where "p" stands.
   */
  function BodyStart(s: string, i: nat): (r: Option<nat>)
    requires i <= |s|
    ensures r.Some? ==> i < r.value <= |s| && Opened(s, r.value)
  {
    if StartsWith(s[i..], PYTHON_OPEN) then
      assert s[i..][..10] == s[i..i + 10];
      Some(i + 10)
    else if StartsWith(s[i..], PLAIN_OPEN) then
      assert s[i..][..4] == s[i..i + 4];
      Some(i + 4)
    else None
  }

  /** An opening fence ends right before `j`. */
  predicate Opened(s: string, j: nat)
    requires j <= |s|
  {
    (j >= 4 && s[j - 4..j] == PLAIN_OPEN) || (j >= 10 && s[j - 10..j] == PYTHON_OPEN)
  }

  /**
   * A block's body `s[span.0..span.1]`: an opening fence right before it, a
   * closing fence right after it, and no fence inside (the body is as short
   * as the lazy `.*?` makes it).
   */
  predicate Block(s: string, span: (nat, nat)) {
    && span.0 <= span.1 && span.1 + |FENCE| <= |s|
    && Opened(s, span.0)
    && s[span.1..span.1 + |FENCE|] == FENCE
    && !Contains(s[span.0..span.1], FENCE)
  }

  /** The text before the first occurrence of a pattern does not contain it. */
  lemma BeforeFirst(x: string, p: string, k: nat)
    requires p != [] && IndexOf(x, p) == Some(k)
    ensures !Contains(x[..k], p)
  {
    var y := x[..k];
    forall t | 0 <= t <= |y| ensures !StartsWith(y[t..], p) {
      if t + |p| <= |y| {
        assert y[t..][..|p|] == x[t..][..|p|];
      }
    }
    ContainsAt(y, p);
  }

  /** The match of the pattern starting at `i`, as the body's span. */
  function MatchAt(s: string, i: nat): (r: Option<(nat, nat)>)
    requires i <= |s|
    ensures r.Some? ==> i < r.value.0 && Block(s, r.value)
  {
    match BodyStart(s, i)
    case None => None
    case Some(j) =>
      match IndexOf(s[j..], FENCE)
      case None => None
      case Some(k) =>
        FirstFenceBlock(s, j, k);
        Some((j, j + k))
  }

  /** The body runs from an opening fence to the first closing fence after it. */
  lemma FirstFenceBlock(s: string, j: nat, k: nat)
    requires j <= |s| && Opened(s, j) && IndexOf(s[j..], FENCE) == Some(k)
    ensures Block(s, (j, j + k))
  {
    FenceAfterBody(s, j, k);
    BodyWithoutFence(s, j, k);
  }

  /** The first fence after `j` sits at `j + k`. */
  lemma FenceAfterBody(s: string, j: nat, k: nat)
    requires j <= |s| && IndexOf(s[j..], FENCE) == Some(k)
    ensures j + k + |FENCE| <= |s| && s[j + k..j + k + |FENCE|] == FENCE
  {
    var t := s[j..];
    assert t[k..k + |FENCE|] == s[j + k..j + k + |FENCE|];
  }

  /** No fence lies between `j` and the first fence after it. */
  lemma BodyWithoutFence(s: string, j: nat, k: nat)
    requires j <= |s| && IndexOf(s[j..], FENCE) == Some(k)
    ensures j + k <= |s| && !Contains(s[j..j + k], FENCE)
  {
    BeforeFirst(s[j..], FENCE, k);
    assert s[j..][..k] == s[j..j + k];
  }

  /**
   * The matches from `i` on, left to right: after a match the search goes on
   * after its closing fence; elsewhere it moves one character on.
   */
  function FindAll(s: string, i: nat): (spans: seq<(nat, nat)>)
    requires i <= |s|
    ensures forall k :: 0 <= k < |spans| ==> i < spans[k].0 && Block(s, spans[k])
    ensures forall k :: 0 <= k < |spans| - 1 ==> spans[k].1 + |FENCE| < spans[k + 1].0
    ensures spans == [] <==> forall p :: i <= p <= |s| ==> MatchAt(s, p).None?
    decreases |s| - i
  {
    if i == |s| then []
    else
      match MatchAt(s, i)
      case None => FindAll(s, i + 1)
      case Some(m) =>
        var rest := FindAll(s, m.1 + |FENCE|);
        assert ([m] + rest)[1..] == rest;
        [m] + rest
  }

  /** The text of the bodies, in order. */
  function Bodies(s: string, spans: seq<(nat, nat)>): (r: seq<string>)
    requires forall k :: 0 <= k < |spans| ==> spans[k].0 <= spans[k].1 <= |s|
    ensures |r| == |spans|
    ensures forall k :: 0 <= k < |spans| ==> r[k] == s[spans[k].0..spans[k].1]
  {
    seq(|spans|, k requires 0 <= k < |spans| => s[spans[k].0..spans[k].1])
  }

  /** `extract_code_blocks` */
  function ExtractCodeBlocks(text: string): (r: seq<string>) {
    var spans := FindAll(text, 0);
    if spans == [] then [Strip(text)] else Bodies(text, spans)
  }

  /**
   * There is always at least one block. When the search finds no fenced
   * block (no match starts anywhere) the one block is the stripped text;
   * otherwise the blocks are the fenced bodies, in order of appearance,
   * none containing a fence.
   */
  lemma ExtractCodeBlocksMeaning(text: string)
    ensures |ExtractCodeBlocks(text)| >= 1
    ensures FindAll(text, 0) == [] ==> ExtractCodeBlocks(text) == [Strip(text)]
    ensures FindAll(text, 0) != [] ==>
      && ExtractCodeBlocks(text) == Bodies(text, FindAll(text, 0))
      && (forall k :: 0 <= k < |ExtractCodeBlocks(text)| ==> !Contains(ExtractCodeBlocks(text)[k], FENCE))
  {
    var spans := FindAll(text, 0);
    if spans != [] {
      var r := Bodies(text, spans);
      forall k | 0 <= k < |r| ensures !Contains(r[k], FENCE) {
        assert Block(text, spans[k]);
      }
    }
  }

  /** A plain opening fence at `|x|` opens a body right after it. */
  lemma PlainOpening(x: string, rest: string)
    ensures BodyStart(x + PLAIN_OPEN + rest, |x|) == Some(|x| + |PLAIN_OPEN|)
    ensures (x + PLAIN_OPEN + rest)[|x| + |PLAIN_OPEN|..] == rest
  {
    var s := x + PLAIN_OPEN + rest;
    assert s[|x|..] == PLAIN_OPEN + rest;
    assert s[|x|..][..4] == PLAIN_OPEN;
    assert s[|x|..][3] == '\n';
  }

  /** The match at a plain opening fence ends at the first closing fence. */
  lemma PlainMatch(x: string, body: string, y: string)
    requires OnlyAtEnd(body, FENCE)
    ensures MatchAt(x + PLAIN_OPEN + (body + FENCE + y), |x|) == Some((|x| + |PLAIN_OPEN|, |x| + |PLAIN_OPEN| + |body|))
  {
    var s := x + PLAIN_OPEN + (body + FENCE + y);
    var j := |x| + |PLAIN_OPEN|;
    PlainOpening(x, body + FENCE + y);
    IndexOfAfter(body, FENCE, y);
    assert IndexOf(s[j..], FENCE) == Some(|body|);
    MatchAtParts(s, |x|, j, |body|);
  }

  /** A match is an opening fence and the first closing fence after it. */
  lemma MatchAtParts(s: string, i: nat, j: nat, k: nat)
    requires i <= |s| && BodyStart(s, i) == Some(j) && IndexOf(s[j..], FENCE) == Some(k)
    ensures MatchAt(s, i) == Some((j, j + k))
  {
  }

  /** No match starts at a character other than a backquote. */
  lemma NoMatchAt(s: string, p: nat)
    requires p < |s| && s[p] != '`'
    ensures MatchAt(s, p).None?
  {
    assert !StartsWith(s[p..], PYTHON_OPEN) && !StartsWith(s[p..], PLAIN_OPEN) by {
      assert s[p..][0] == s[p];
    }
  }

  /** No match starts inside text without backquotes. */
  lemma NoMatchBefore(s: string, i: nat)
    requires i <= |s|
    requires forall t :: 0 <= t < i ==> s[t] != '`'
    ensures forall p :: 0 <= p < i ==> MatchAt(s, p).None?
  {
    forall p | 0 <= p < i ensures MatchAt(s, p).None? {
      NoMatchAt(s, p);
    }
  }

  /** When the first match starts at `i`, the first block is its body. */
  lemma FirstMatchFound(s: string, i: nat, m: (nat, nat))
    requires i <= |s| && MatchAt(s, i) == Some(m)
    requires forall t :: 0 <= t < i ==> s[t] != '`'
    ensures m.0 <= m.1 <= |s|
    ensures ExtractCodeBlocks(s) != [] && ExtractCodeBlocks(s)[0] == s[m.0..m.1]
  {
    NoMatchBefore(s, i);
    FindAllSkips(s, 0, i);
    FindAllAt(s, i);
  }

  /** A match where the search stands is the next one found. */
  lemma FindAllAt(s: string, i: nat)
    requires i <= |s| && MatchAt(s, i).Some?
    ensures FindAll(s, i) != [] && FindAll(s, i)[0] == MatchAt(s, i).value
  {
  }

  /** The search finds nothing before `i` when no match starts there. */
  lemma {:induction false} FindAllSkips(s: string, from: nat, i: nat)
    requires from <= i <= |s|
    requires forall p :: from <= p < i ==> MatchAt(s, p).None?
    ensures FindAll(s, from) == FindAll(s, i)
    decreases i - from
  {
    if from < i {
      FindAllNext(s, from);
      FindAllSkips(s, from + 1, i);
    }
  }

  /** Where no match starts, the search moves on by one character. */
  lemma FindAllNext(s: string, i: nat)
    requires i < |s| && MatchAt(s, i).None?
    ensures FindAll(s, i) == FindAll(s, i + 1)
  {
  }

  // ---------------------------------------------------------------------------
  // extract_codes_from_jsonl

  /** `{"code": block}` for every block, in order. */
  function CodeRecords(blocks: seq<string>): (r: seq<Json>)
    ensures |r| == |blocks|
    ensures forall k :: 0 <= k < |blocks| ==> r[k] == JObj([Field("code", JStr(blocks[k]))])
  {
    seq(|blocks|, k requires 0 <= k < |blocks| => JObj([Field("code", JStr(blocks[k]))]))
  }

  /**
   * The records one message adds, or `None` when it raises: `msg.get` on a
   * value that is not a dict, or the content of an assistant message missing
   * or not a string.
   */
  function MessageCodes(msg: Json): (r: Option<seq<Json>>) {
    if !msg.JObj? then None
    else if Get(msg.fields, "role") != Some(JStr("assistant")) then Some([])
    else
      match Get(msg.fields, "content")
      case Some(JStr(content)) => Some(CodeRecords(ExtractCodeBlocks(content)))
      case _ => None
  }

  /**
   * Only assistant messages add records: a message adding any is a dict
   * whose role is "assistant" and whose content is a string, and it adds one
   * record per block of that content, at least one.
   */
  lemma MessageCodesMeaning(msg: Json)
    ensures MessageCodes(msg).Some? && MessageCodes(msg).value != [] <==>
      msg.JObj? && Get(msg.fields, "role") == Some(JStr("assistant"))
      && Get(msg.fields, "content").Some? && Get(msg.fields, "content").value.JStr?
    ensures (msg.JObj? && Get(msg.fields, "role") == Some(JStr("assistant")) && Get(msg.fields, "content").Some?
             && Get(msg.fields, "content").value.JStr?) ==>
      MessageCodes(msg) == Some(CodeRecords(ExtractCodeBlocks(Get(msg.fields, "content").value.s)))
  {
    if msg.JObj? && Get(msg.fields, "role") == Some(JStr("assistant")) {
      match Get(msg.fields, "content")
      case Some(JStr(content)) => ExtractCodeBlocksMeaning(content);
      case _ =>
    }
  }

  /** What `for msg in v` goes through, or `None` when `v` is not iterable. */
  function Iterated(v: Json): (r: Option<seq<Json>>)
    ensures v.JArr? ==> r == Some(v.items)
  {
    match v
    case JArr(items) => Some(items)
    case JObj(fields) => Some(seq(|fields|, k requires 0 <= k < |fields| => JStr(fields[k].key)))
    case JStr(s) => Some(seq(|s|, k requires 0 <= k < |s| => JStr([s[k]])))
    case _ => None
  }

  /** `'messages' in obj`, or `None` when the test raises. */
  function HasMessages(obj: Json): Option<bool> {
    match obj
    case JObj(fields) => Some(Has(fields, "messages"))
    case JArr(items) => Some(JStr("messages") in items)
    case JStr(s) => Some(Contains(s, "messages"))
    case _ => None
  }

  function MessageOuts(msgs: seq<Json>): (os: seq<Option<seq<Json>>>)
    ensures |os| == |msgs|
    ensures forall k :: 0 <= k < |msgs| ==> os[k] == MessageCodes(msgs[k])
  {
    seq(|msgs|, k requires 0 <= k < |msgs| => MessageCodes(msgs[k]))
  }

  /**
   * The records one line adds, or `None` when it raises: the line is not
   * JSON, the membership test fails, `obj['messages']` is taken of a list or
   * a string, or a message raises.
   */
  function LineCodes(line: string, decode: string -> Option<Json>): Option<seq<Json>> {
    match decode(line)
    case None => None
    case Some(obj) =>
      match HasMessages(obj)
      case None => None
      case Some(false) => Some([])
      case Some(true) =>
        if !obj.JObj? then None
        else
          match Iterated(Get(obj.fields, "messages").value)
          case None => None
          case Some(msgs) => Gather(MessageOuts(msgs))
  }

  function LineOuts(lines: seq<string>, decode: string -> Option<Json>): (os: seq<Option<seq<Json>>>)
    ensures |os| == |lines|
    ensures forall k :: 0 <= k < |lines| ==> os[k] == LineCodes(lines[k], decode)
  {
    seq(|lines|, k requires 0 <= k < |lines| => LineCodes(lines[k], decode))
  }

  /** `code_data` after the whole file, or `None` when a line raised and nothing was written. */
  function ExtractedCodes(lines: seq<string>, decode: string -> Option<Json>): Option<seq<Json>> {
    Gather(LineOuts(lines, decode))
  }

  /** A record in the output is `{"code": s}` for a string `s`. */
  predicate CodeRecord(r: Json) {
    r.JObj? && |r.fields| == 1 && r.fields[0].key == "code" && r.fields[0].value.JStr?
  }

  /** Every record a message adds is a code record. */
  lemma MessageCodesShape(msg: Json)
    requires MessageCodes(msg).Some?
    ensures forall r :: r in MessageCodes(msg).value ==> CodeRecord(r)
  {
  }

  /** Every record a line adds is a code record. */
  lemma LineCodesShape(line: string, decode: string -> Option<Json>)
    requires LineCodes(line, decode).Some?
    ensures forall r :: r in LineCodes(line, decode).value ==> CodeRecord(r)
  {
    var obj := decode(line).value;
    if HasMessages(obj) == Some(true) {
      var msgs := Iterated(Get(obj.fields, "messages").value).value;
      var os := MessageOuts(msgs);
      forall k | 0 <= k < |os| && os[k].Some? ensures forall r :: r in os[k].value ==> CodeRecord(r) {
        MessageCodesShape(msgs[k]);
      }
      GatherKeeps(os, CodeRecord);
    }
  }

  /**
   * The run fails exactly when some line raises; otherwise every record
   * written is a `{"code": ...}` record.
   */
  lemma ExtractedCodesMeaning(lines: seq<string>, decode: string -> Option<Json>)
    ensures ExtractedCodes(lines, decode).None? <==> exists k :: 0 <= k < |lines| && LineCodes(lines[k], decode).None?
    ensures ExtractedCodes(lines, decode).Some? ==> forall r :: r in ExtractedCodes(lines, decode).value ==> CodeRecord(r)
  {
    var os := LineOuts(lines, decode);
    if k :| 0 <= k < |lines| && os[k].None? {
      GatherFails(os, k);
    } else {
      GatherAll(os);
      forall k | 0 <= k < |os| && os[k].Some? ensures forall r :: r in os[k].value ==> CodeRecord(r) {
        LineCodesShape(lines[k], decode);
      }
      GatherKeeps(os, CodeRecord);
    }
  }

  /** The innermost loop: one record per block, appended in order. */
  method AppendCodes(codeData: seq<Json>, blocks: seq<string>) returns (r: seq<Json>)
    ensures r == codeData + CodeRecords(blocks)
  {
    r := codeData;
    for k := 0 to |blocks|
      invariant r == codeData + CodeRecords(blocks[..k])
    {
      assert CodeRecords(blocks[..k + 1]) == CodeRecords(blocks[..k]) + [JObj([Field("code", JStr(blocks[k]))])];
      r := r + [JObj([Field("code", JStr(blocks[k]))])];
    }
    assert blocks[..|blocks|] == blocks;
  }

  /** The loop over one line's messages. */
  method ScanMessages(msgs: seq<Json>) returns (r: Option<seq<Json>>)
    ensures r == Gather(MessageOuts(msgs))
  {
    ghost var os := MessageOuts(msgs);
    var added: seq<Json> := [];
    for k := 0 to |msgs|
      invariant Gather(os[..k]) == Some(added)
    {
      GatherSnoc(os, k, added);
      var msg := msgs[k];
      if !msg.JObj? {
        GatherFails(os, k);
        return None;
      }
      if Get(msg.fields, "role") == Some(JStr("assistant")) {
        var content := Get(msg.fields, "content");
        if content.None? || !content.value.JStr? {
          GatherFails(os, k);
          return None;
        }
        assert os[k] == Some(CodeRecords(ExtractCodeBlocks(content.value.s)));
        added := AppendCodes(added, ExtractCodeBlocks(content.value.s));
      } else {
        assert os[k] == Some([]);
        assert added + [] == added;
      }
    }
    assert os[..|msgs|] == os;
    r := Some(added);
  }

  /** `extract_codes_from_jsonl`: the records, or `None` when the run raised before writing. */
  method ExtractCodesFromJsonl(lines: seq<string>, decode: string -> Option<Json>) returns (r: Option<seq<Json>>)
    ensures r == ExtractedCodes(lines, decode)
  {
    ghost var os := LineOuts(lines, decode);
    var codeData: seq<Json> := [];
    for k := 0 to |lines|
      invariant Gather(os[..k]) == Some(codeData)
    {
      GatherSnoc(os, k, codeData);
      var added := LineRecords(lines[k], decode);
      if added.None? {
        GatherFails(os, k);
        return None;
      }
      codeData := codeData + added.value;
    }
    assert os[..|lines|] == os;
    r := Some(codeData);
  }

  /** The body of the line loop. */
  method LineRecords(line: string, decode: string -> Option<Json>) returns (r: Option<seq<Json>>)
    ensures r == LineCodes(line, decode)
  {
    var obj := decode(line);
    if obj.None? {
      return None;
    }
    var has := HasMessages(obj.value);
    if has.None? {
      return None;
    }
    if !has.value {
      return Some([]);
    }
    if !obj.value.JObj? {
      return None;
    }
    var msgs := Iterated(Get(obj.value.fields, "messages").value);
    if msgs.None? {
      return None;
    }
    r := ScanMessages(msgs.value);
  }
}
