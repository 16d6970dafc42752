/** A fill-in-the-middle sample: the code before the hole, the hole, and the code after it. */
module Fim {
  import opened Wrappers
  import opened Text

  /** The `{"prefix_code", "target_code", "suffix_code"}` record the chunkers write. */
  datatype Sample = Sample(prefix: string, target: string, suffix: string)

  /** U+FF5C FULLWIDTH VERTICAL LINE, used in the DeepSeek Coder FIM tags. */
  const BAR: char := '\U{FF5C}'

  const FIM_BEGIN: string := "<" + [BAR] + "fim begin" + [BAR] + ">"
  const FIM_HOLE: string := "<" + [BAR] + "fim hole" + [BAR] + ">"
  const FIM_END: string := "<" + [BAR] + "fim end" + [BAR] + ">"

  /** The four special tokens of a FIM training string. */
  datatype Tokens = Tokens(start: string, hole: string, end: string, eos: string)

  /** `start + prefix + hole + suffix + end + target + eos`: the suffix comes before the target. */
  function Assemble(t: Tokens, s: Sample): string {
    t.start + (s.prefix + (t.hole + (s.suffix + (t.end + (s.target + t.eos)))))
  }

  /** The target before the final eos token. */
  function TargetOf(eos: string, tail: string): (r: Option<string>)
    ensures r.Some? ==> tail == r.value + eos
    ensures forall x :: tail == x + eos ==> r == Some(x)
  {
    if !EndsWith(tail, eos) then None
    else
      assert tail == tail[..|tail| - |eos|] + eos;
      Some(tail[..|tail| - |eos|])
  }

  /** The suffix before the first end token, and the target after it. */
  function SuffixAndTarget(t: Tokens, after: string): (r: Option<(string, string)>)
    ensures r.Some? ==> after == r.value.0 + (t.end + (r.value.1 + t.eos))
  {
    match Partition(after, t.end)
    case None => None
    case Some((suffix, tail)) =>
      PartitionSound(after, t.end);
      match TargetOf(t.eos, tail)
      case None => None
      case Some(target) => Some((suffix, target))
  }

  /** The prefix before the first hole token, then the suffix and the target. */
  function AfterStart(t: Tokens, rest: string): (r: Option<Sample>)
    ensures r.Some? ==> rest == r.value.prefix + (t.hole + (r.value.suffix + (t.end + (r.value.target + t.eos))))
  {
    match Partition(rest, t.hole)
    case None => None
    case Some((prefix, after)) =>
      PartitionSound(rest, t.hole);
      match SuffixAndTarget(t, after)
      case None => None
      case Some((suffix, target)) => Some(Sample(prefix, target, suffix))
  }

  /**
   * The inverse of `Assemble`: the prefix runs to the first hole token, the
   * suffix to the first end token after it, and the target to the final eos.
   * Whatever it recovers assembles back to the text it came from.
   */
  function Disassemble(t: Tokens, text: string): (r: Option<Sample>)
    ensures r.Some? ==> Assemble(t, r.value) == text
  {
    if !StartsWith(text, t.start) then None
    else
      assert text == t.start + text[|t.start|..];
      AfterStart(t, text[|t.start|..])
  }

  /**
   * A sample whose prefix holds no hole token and whose suffix holds no end
   * token is recovered from its assembled string.
   */
  lemma DisassembleAssemble(t: Tokens, s: Sample)
    requires OnlyAtEnd(s.prefix, t.hole) && OnlyAtEnd(s.suffix, t.end)
    ensures Disassemble(t, Assemble(t, s)) == Some(s)
  {
    var tail := s.target + t.eos;
    var after := s.suffix + t.end + tail;
    var rest := s.prefix + t.hole + after;
    assert Assemble(t, s) == t.start + rest;
    assert (t.start + rest)[|t.start|..] == rest;
    PartitionAfter(s.suffix, t.end, tail);
    assert SuffixAndTarget(t, after) == Some((s.suffix, s.target));
    PartitionAfter(s.prefix, t.hole, after);
    assert AfterStart(t, rest) == Some(s);
  }
}
