/**
 * Newline normalisation of the code in chat-format training records: the
 * code is stripped and every run of two or more newlines becomes exactly one
 * blank line. The file pass rewrites the first assistant message of each
 * record and writes every record it could process.
 */
module EnterRemove {
  import opened Wrappers
  import opened Text
  import opened Json

  /** Length of the run of '\n' that `s` starts with. */
  function NewlineRun(s: string): (k: nat)
    ensures k <= |s|
    ensures forall i :: 0 <= i < k ==> s[i] == '\n'
    ensures k < |s| ==> s[k] != '\n'
  {
    if s == [] || s[0] != '\n' then 0 else 1 + NewlineRun(s[1..])
  }

  /** No three consecutive newlines. */
  predicate NoTripleNewline(s: string)
    decreases |s|
  {
    |s| < 3 || (!(s[0] == '\n' && s[1] == '\n' && s[2] == '\n') && NoTripleNewline(s[1..]))
  }

  /**
   * `re.sub(r'\n{2,}', r'\n\n', s)`: scanning left to right, each maximal
   * run of two or more newlines becomes two; a lone newline stays.
   */
  function CollapseNewlines(s: string): (r: string)
    ensures |r| <= |s|
    ensures s != [] ==> r != [] && r[0] == s[0] && r[|r| - 1] == s[|s| - 1]
    ensures s == [] ==> r == []
    decreases |s|
  {
    if s == [] then []
    else if s[0] != '\n' then [s[0]] + CollapseNewlines(s[1..])
    else
      var k := NewlineRun(s);
      (if k >= 2 then "\n\n" else "\n") + CollapseNewlines(s[k..])
  }

  /** The collapse leaves no three newlines in a row. */
  lemma {:induction false} CollapseNoTriple(s: string)
    ensures NoTripleNewline(CollapseNewlines(s))
    decreases |s|
  {
    if s != [] {
      if s[0] != '\n' {
        CollapseNoTriple(s[1..]);
        assert CollapseNewlines(s)[1..] == CollapseNewlines(s[1..]);
      } else {
        var k := NewlineRun(s);
        var rest := CollapseNewlines(s[k..]);
        CollapseNoTriple(s[k..]);
        assert rest != [] ==> rest[0] == s[k];
        assert ("\n" + rest)[1..] == rest;
        if k >= 2 { assert ("\n\n" + rest)[1..] == "\n" + rest; }
      }
    }
  }

  /** `normalize_code_spacing` */
  function Normalize(code: string): (r: string)
    ensures r == [] || (!IsSpace(r[0]) && !IsSpace(r[|r| - 1]))
    ensures r == [] <==> IsBlank(code)
  {
    CollapseNewlines(Strip(code))
  }

  /** The normalised code never holds three newlines in a row. */
  lemma NormalizeNoTriple(code: string)
    ensures NoTripleNewline(Normalize(code))
  {
    CollapseNoTriple(Strip(code));
  }

  /** A text without three newlines in a row is left alone by the collapse. */
  lemma {:induction false} CollapseFixed(t: string)
    requires NoTripleNewline(t)
    ensures CollapseNewlines(t) == t
    decreases |t|
  {
    if t != [] {
      if t[0] != '\n' {
        CollapseFixed(t[1..]);
      } else {
        var k := NewlineRun(t);
        ShortRun(t);
        CollapseFixed(t[k..]);
        RunSplit(t);
      }
    }
  }

  /** Without three newlines in a row, a leading run is at most two long and the rest keeps the property. */
  lemma ShortRun(t: string)
    requires NoTripleNewline(t) && t != [] && t[0] == '\n'
    ensures NewlineRun(t) <= 2 && NoTripleNewline(t[NewlineRun(t)..])
  {
    var k := NewlineRun(t);
    if k == 2 {
      assert t[1..][1..] == t[2..];
    }
  }

  /** A leading run of one or two newlines, then the rest. */
  lemma RunSplit(t: string)
    requires t != [] && t[0] == '\n' && NewlineRun(t) <= 2
    ensures t == (if NewlineRun(t) >= 2 then "\n\n" else "\n") + t[NewlineRun(t)..]
  {
    var k := NewlineRun(t);
    assert t == t[..k] + t[k..];
    if k == 2 { assert t[..k] == "\n\n"; } else { assert t[..k] == "\n"; }
  }

  /** Normalising twice gives what normalising once gives. */
  lemma NormalizeIdempotent(code: string)
    ensures Normalize(Normalize(code)) == Normalize(code)
  {
    var n := Normalize(code);
    assert Strip(n) == n by { StripOfTrimmed(n); }
    assert CollapseNewlines(n) == n by {
      NormalizeNoTriple(code);
      CollapseFixed(n);
    }
  }

  /** The string without its '\n' characters. */
  function DropNewlines(s: string): (r: string)
    ensures forall i :: 0 <= i < |r| ==> r[i] != '\n'
  {
    if s == [] then [] else (if s[0] == '\n' then [] else [s[0]]) + DropNewlines(s[1..])
  }

  lemma {:induction false} DropNewlinesAppend(a: string, b: string)
    ensures DropNewlines(a + b) == DropNewlines(a) + DropNewlines(b)
  {
    if a != [] {
      assert (a + b)[1..] == a[1..] + b;
      DropNewlinesAppend(a[1..], b);
    } else {
      assert a + b == b;
    }
  }

  lemma {:induction false} DropNewlinesOfRun(s: string, k: nat)
    requires k <= |s| && forall i :: 0 <= i < k ==> s[i] == '\n'
    ensures DropNewlines(s[..k]) == []
  {
    if k > 0 {
      assert s[..k][1..] == s[1..][..k - 1];
      DropNewlinesOfRun(s[1..], k - 1);
    }
  }

  /** The collapse only deletes newlines: every other character stays, in order. */
  lemma {:induction false} CollapseKeepsText(s: string)
    ensures DropNewlines(CollapseNewlines(s)) == DropNewlines(s)
    decreases |s|
  {
    if s != [] {
      if s[0] != '\n' {
        CollapseKeepsText(s[1..]);
        DropNewlinesAppend([s[0]], CollapseNewlines(s[1..]));
      } else {
        var k := NewlineRun(s);
        CollapseKeepsText(s[k..]);
        CollapseRunText(s);
        RunText(s);
      }
    }
  }

  /** What the collapse makes of a leading run of newlines holds no other character. */
  lemma CollapseRunText(s: string)
    requires s != [] && s[0] == '\n'
    ensures DropNewlines(CollapseNewlines(s)) == DropNewlines(CollapseNewlines(s[NewlineRun(s)..]))
  {
    var k := NewlineRun(s);
    var head := if k >= 2 then "\n\n" else "\n";
    DropNewlinesAppend(head, CollapseNewlines(s[k..]));
    assert DropNewlines(head) == [] by {
      if k >= 2 { assert head[1..] == "\n"; }
    }
  }

  /** A leading run of newlines holds no other character. */
  lemma RunText(s: string)
    requires s != [] && s[0] == '\n'
    ensures DropNewlines(s) == DropNewlines(s[NewlineRun(s)..])
  {
    var k := NewlineRun(s);
    DropNewlinesOfRun(s, k);
    assert s == s[..k] + s[k..];
    DropNewlinesAppend(s[..k], s[k..]);
  }

  /** Deleting every '\n' from the output gives the stripped input with every '\n' deleted. */
  lemma NormalizeKeepsText(code: string)
    ensures DropNewlines(Normalize(code)) == DropNewlines(Strip(code))
  {
    CollapseKeepsText(Strip(code));
  }

  // ---------------------------------------------------------------------
  // process_jsonl_file

  /** `message.get('role') == 'assistant' and 'content' in message`, on a message that is a dict. */
  predicate IsAssistantWithContent(fields: seq<Field>) {
    Get(fields, "role") == Some(JStr("assistant")) && Has(fields, "content")
  }

  /** The message with its code normalised; `None` where `.strip()` fails on non-string content. */
  function RewriteMessage(fields: seq<Field>): (r: Option<seq<Field>>)
    requires Has(fields, "content")
    ensures r.Some? <==> GetOr(fields, "content", JNull).JStr?
    ensures r.Some? ==> Get(r.value, "content") == Some(JStr(Normalize(GetOr(fields, "content", JNull).s)))
    ensures r.Some? ==> forall k :: k != "content" ==> Get(r.value, k) == Get(fields, k)
  {
    match GetOr(fields, "content", JNull)
    case JStr(code) => Some(Set(fields, "content", JStr(Normalize(code))))
    case _ => None
  }

  /**
   * The inner loop over the messages: the first assistant message with a
   * `content` key is rewritten and the loop stops. `None` when an exception
   * skips the line: a message that is not a dict (`.get` fails) before that
   * point, or content that is not a string. The flag says whether a message
   * was rewritten.
   */
  function RewriteMessages(ms: seq<Json>): Option<(seq<Json>, bool)>
    decreases |ms|
  {
    if ms == [] then Some((ms, false))
    else if !ms[0].JObj? then None
    else if IsAssistantWithContent(ms[0].fields) then
      var f := RewriteMessage(ms[0].fields);
      if f.None? then None else Some(([JObj(f.value)] + ms[1..], true))
    else
      var rest := RewriteMessages(ms[1..]);
      if rest.None? then None else Some(([ms[0]] + rest.value.0, rest.value.1))
  }

  /** Position of the first message that is an assistant dict with content, or `|ms|`. */
  function FirstAssistant(ms: seq<Json>): (i: nat)
    ensures i <= |ms|
    ensures i < |ms| ==> ms[i].JObj? && IsAssistantWithContent(ms[i].fields)
  {
    if ms == [] then 0
    else if ms[0].JObj? && IsAssistantWithContent(ms[0].fields) then 0
    else 1 + FirstAssistant(ms[1..])
  }

  /** No message before that position is an assistant dict with content. */
  lemma {:induction false} FirstAssistantIsFirst(ms: seq<Json>, j: nat)
    requires j < FirstAssistant(ms)
    ensures !(ms[j].JObj? && IsAssistantWithContent(ms[j].fields))
  {
    if j > 0 {
      FirstAssistantIsFirst(ms[1..], j - 1);
    }
  }

  /** When the loop completes, it rewrote a message exactly when there is an assistant message with content. */
  lemma {:induction false} RewriteFlag(ms: seq<Json>)
    requires RewriteMessages(ms).Some?
    ensures var (out, rewritten) := RewriteMessages(ms).value;
      && (rewritten <==> FirstAssistant(ms) < |ms|)
      && (!rewritten ==> out == ms)
    decreases |ms|
  {
    if ms != [] && !IsAssistantWithContent(ms[0].fields) {
      RewriteFlag(ms[1..]);
      assert ms == [ms[0]] + ms[1..];
    }
  }

  /** Exactly the first assistant message with content is rewritten; every other message is kept. */
  lemma {:induction false} RewriteOnlyFirstAssistant(ms: seq<Json>)
    requires RewriteMessages(ms).Some? && RewriteMessages(ms).value.1
    ensures var i := FirstAssistant(ms);
      && i < |ms|
      && RewriteMessage(ms[i].fields).Some?
      && RewriteMessages(ms).value.0 == ms[..i] + [JObj(RewriteMessage(ms[i].fields).value)] + ms[i + 1..]
    decreases |ms|
  {
    if IsAssistantWithContent(ms[0].fields) {
      RewriteAtHead(ms);
    } else {
      var i := FirstAssistant(ms[1..]);
      assert FirstAssistant(ms) == i + 1;
      assert i < |ms| - 1 && ms[i + 1].JObj? && RewriteMessage(ms[i + 1].fields).Some? by {
        RewriteOnlyFirstAssistant(ms[1..]);
        assert ms[1..][i] == ms[i + 1];
      }
      var x := JObj(RewriteMessage(ms[i + 1].fields).value);
      assert RewriteMessages(ms[1..]) == Some((ms[1..][..i] + [x] + ms[1..][i + 1..], true)) by {
        RewriteOnlyFirstAssistant(ms[1..]);
        assert ms[1..][i] == ms[i + 1];
      }
      RewriteSkipsHead(ms, i, x);
    }
  }

  /** A record whose first message is the assistant message has that one rewritten. */
  lemma RewriteAtHead(ms: seq<Json>)
    requires ms != [] && ms[0].JObj? && IsAssistantWithContent(ms[0].fields)
    requires RewriteMessages(ms).Some?
    ensures FirstAssistant(ms) == 0 && RewriteMessage(ms[0].fields).Some?
    ensures RewriteMessages(ms).value.0 == ms[..0] + [JObj(RewriteMessage(ms[0].fields).value)] + ms[1..]
  {
  }

  /** The step past a message that is not rewritten: the rest is rewritten as if on its own. */
  lemma RewriteSkipsHead(ms: seq<Json>, i: nat, x: Json)
    requires ms != [] && ms[0].JObj? && !IsAssistantWithContent(ms[0].fields) && i < |ms| - 1
    requires RewriteMessages(ms[1..]) == Some((ms[1..][..i] + [x] + ms[1..][i + 1..], true))
    ensures RewriteMessages(ms) == Some((ms[..i + 1] + [x] + ms[i + 2..], true))
  {
    SpliceUnderHead(ms, i, x);
  }

  lemma SpliceUnderHead<T>(s: seq<T>, i: nat, x: T)
    requires i < |s| - 1
    ensures [s[0]] + (s[1..][..i] + [x] + s[1..][i + 1..]) == s[..i + 1] + [x] + s[i + 2..]
  {
    assert s[..i + 1] == [s[0]] + s[1..][..i];
    assert s[i + 2..] == s[1..][i + 1..];
  }

  /**
   * One parsed line: `None` when an exception skips it, otherwise the
   * record to write and whether a code block was normalised. A list or a
   * string holding "messages" fails at `data['messages']`; a number, a
   * boolean or null fails at the `in` test.
   */
  function ProcessRecord(data: Json): (r: Option<(Json, bool)>)
    ensures r.Some? && !r.value.1 ==> r.value.0 == data
    ensures r.Some? && data.JObj? ==>
      && r.value.0.JObj?
      && forall k :: k != "messages" ==> Get(r.value.0.fields, k) == Get(data.fields, k)
    ensures r.Some? && r.value.1 ==>
      && data.JObj? && Get(data.fields, "messages").Some? && Get(data.fields, "messages").value.JArr?
      && var rewritten := RewriteMessages(Get(data.fields, "messages").value.items);
         rewritten.Some? && rewritten.value.1
         && Get(r.value.0.fields, "messages") == Some(JArr(rewritten.value.0))
  {
    match data
    case JObj(fields) =>
      (match Get(fields, "messages")
       case Some(JArr(ms)) =>
         (match RewriteMessages(ms)
          case None => None
          case Some((ms', b)) =>
            if b then Some((JObj(Set(fields, "messages", JArr(ms'))), true)) else Some((data, false)))
       case _ => Some((data, false)))
    case JArr(items) => if JStr("messages") in items then None else Some((data, false))
    case JStr(s) => if Contains(s, "messages") then None else Some((data, false))
    case _ => None
  }

  /** The records written for the lines read so far; a line that does not parse is `None`. */
  function Written(lines: seq<Option<Json>>): seq<Json> {
    if lines == [] then []
    else
      var prev := Written(lines[..|lines| - 1]);
      match lines[|lines| - 1]
      case None => prev
      case Some(d) =>
        match ProcessRecord(d)
        case None => prev
        case Some((out, _)) => prev + [out]
  }

  /** The number of code blocks normalised for the lines read so far. */
  function Normalised(lines: seq<Option<Json>>): nat {
    if lines == [] then 0
    else
      var prev := Normalised(lines[..|lines| - 1]);
      match lines[|lines| - 1]
      case None => prev
      case Some(d) =>
        match ProcessRecord(d)
        case Some((_, true)) => prev + 1
        case _ => prev
  }

  /** At most one record per line is written, and each normalised block belongs to a written record. */
  lemma {:induction false} WrittenBounds(lines: seq<Option<Json>>)
    ensures Normalised(lines) <= |Written(lines)| <= |lines|
  {
    if lines != [] {
      WrittenBounds(lines[..|lines| - 1]);
    }
  }

  /** Every line that parses and raises nothing is written, in input order. */
  lemma {:induction false} WrittenAppend(lines: seq<Option<Json>>, more: seq<Option<Json>>)
    ensures Written(lines + more) == Written(lines) + Written(more)
    decreases |more|
  {
    if more == [] {
      assert lines + more == lines;
    } else {
      assert (lines + more)[..|lines + more| - 1] == lines + more[..|more| - 1];
      WrittenAppend(lines, more[..|more| - 1]);
    }
  }

  lemma WrittenOne(d: Json)
    ensures Written([Some(d)]) == if ProcessRecord(d).Some? then [ProcessRecord(d).value.0] else []
  {
    assert [Some(d)][..0] == [];
  }

  /**
   * `process_jsonl_file`: a missing input file writes nothing and creates no
   * output; otherwise each line is processed in turn.
   */
  method ProcessJsonlFile(input: Option<seq<Option<Json>>>) returns (output: Option<seq<Json>>, processedCount: nat)
    ensures input.None? ==> output.None? && processedCount == 0
    ensures input.Some? ==> output == Some(Written(input.value)) && processedCount == Normalised(input.value)
  {
    if input.None? {
      return None, 0;
    }
    var lines := input.value;
    var out: seq<Json> := [];
    processedCount := 0;
    var i := 0;
    while i < |lines|
      invariant 0 <= i <= |lines|
      invariant out == Written(lines[..i]) && processedCount == Normalised(lines[..i])
    {
      assert lines[..i + 1][..i] == lines[..i];
      match lines[i] {
        case None =>
        case Some(data) =>
          match ProcessRecord(data) {
            case None =>
            case Some((record, normalised)) =>
              out := out + [record];
              if normalised {
                processedCount := processedCount + 1;
              }
          }
      }
      i := i + 1;
    }
    assert lines[..i] == lines;
    output := Some(out);
  }
}
