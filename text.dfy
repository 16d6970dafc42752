/**
 * The Python `str` operations the scripts rely on, over `seq<char>`:
 * whitespace tests, `strip`, `startswith`, `in`, `replace`, `count`,
 * `splitlines`, `split`, `join` and ASCII lower-casing.
 */
module Text {
  import opened Wrappers

  /** `str.isspace()` of one character; also the set matched by `\s` in a `str` regex. */
  predicate IsSpace(c: char) {
    var n := c as int;
    (9 <= n <= 13) || (0x1C <= n <= 0x20) || n == 0x85 || n == 0xA0 || n == 0x1680
    || (0x2000 <= n <= 0x200A) || n == 0x2028 || n == 0x2029 || n == 0x202F
    || n == 0x205F || n == 0x3000
  }

  /** A one-character line boundary of `str.splitlines()`; "\r\n" counts as one boundary. */
  predicate IsLineBreak(c: char) {
    var n := c as int;
    (10 <= n <= 13) || (0x1C <= n <= 0x1E) || n == 0x85 || n == 0x2028 || n == 0x2029
  }

  predicate IsAsciiAlnum(c: char) {
    ('a' <= c <= 'z') || ('A' <= c <= 'Z') || ('0' <= c <= '9')
  }

  /** `[\w_]` restricted to ASCII. */
  predicate IsWordChar(c: char) {
    IsAsciiAlnum(c) || c == '_'
  }

  /** `not s.strip()`: the string is empty or all whitespace. */
  predicate IsBlank(s: string) {
    forall i :: 0 <= i < |s| ==> IsSpace(s[i])
  }

  predicate StartsWith(s: string, p: string) {
    |p| <= |s| && s[..|p|] == p
  }

  predicate EndsWith(s: string, p: string) {
    |p| <= |s| && s[|s| - |p|..] == p
  }

  /** The first position at or after `k` that does not hold whitespace, or the end. */
  function Lead(s: string, k: nat): (n: nat)
    requires k <= |s|
    ensures k <= n <= |s|
    ensures forall j :: k <= j < n ==> IsSpace(s[j])
    ensures n == |s| || !IsSpace(s[n])
    decreases |s| - k
  {
    if k < |s| && IsSpace(s[k]) then Lead(s, k + 1) else k
  }

  /** The position after the last non-whitespace character before `k`, or 0. */
  function Trail(s: string, k: nat): (n: nat)
    requires k <= |s|
    ensures n <= k
    ensures forall j :: n <= j < k ==> IsSpace(s[j])
    ensures n == 0 || !IsSpace(s[n - 1])
  {
    if k > 0 && IsSpace(s[k - 1]) then Trail(s, k - 1) else k
  }

  /** `s.lstrip()` */
  function LStrip(s: string): (r: string)
    ensures |r| <= |s|
    ensures r == [] || !IsSpace(r[0])
  {
    s[Lead(s, 0)..]
  }

  /** What `lstrip` removes is whitespace. */
  lemma LStripDropsBlank(s: string)
    ensures IsBlank(s[..|s| - |LStrip(s)|])
  {
  }

  /** A leading space does not survive `lstrip`. */
  lemma LStripSpace(x: string)
    ensures LStrip(" " + x) == LStrip(x)
  {
    var s := " " + x;
    LeadShift(x, 0);
    assert s[1 + Lead(x, 0)..] == x[Lead(x, 0)..];
  }

  lemma {:induction false} LeadShift(x: string, k: nat)
    requires k <= |x|
    ensures Lead(" " + x, k + 1) == Lead(x, k) + 1
    ensures Lead(" " + x, 0) == Lead(" " + x, 1)
    decreases |x| - k
  {
    var s := " " + x;
    assert s[0] == ' ';
    if k < |x| {
      assert s[k + 1] == x[k];
      if IsSpace(x[k]) {
        LeadShift(x, k + 1);
      }
    }
  }

  /** `s.rstrip()` */
  function RStrip(s: string): (r: string)
    ensures |r| <= |s|
    ensures r == [] || !IsSpace(r[|r| - 1])
  {
    s[..Trail(s, |s|)]
  }

  /** What `rstrip` removes is whitespace. */
  lemma RStripDropsBlank(s: string)
    ensures IsBlank(s[|RStrip(s)|..])
  {
  }

  /** `s.strip()`: the whitespace-free middle of `s`. */
  function Strip(s: string): (r: string)
    ensures |r| <= |s|
    ensures r == [] || (!IsSpace(r[0]) && !IsSpace(r[|r| - 1]))
    ensures r == [] <==> IsBlank(s)
  {
    var l := LStrip(s);
    var r := RStrip(l);
    assert r == [] ==> l == [];
    r
  }

  /** A string with no whitespace at either end is its own `strip()`. */
  lemma StripOfTrimmed(s: string)
    requires s == [] || (!IsSpace(s[0]) && !IsSpace(s[|s| - 1]))
    ensures Strip(s) == s
  {
  }

  lemma StripIdempotent(s: string)
    ensures Strip(Strip(s)) == Strip(s)
  {
    var t := Strip(s);
    if t == [] {
      assert Strip(t) == [];
    } else {
      StripOfTrimmed(t);
    }
  }

  /** The text before the first occurrence of `p`, as `s.find(p)` gives it. */
  function IndexOf(s: string, p: string): (r: Option<nat>)
    ensures r.Some? ==> r.value + |p| <= |s| && s[r.value..r.value + |p|] == p
    ensures r.Some? ==> forall k :: 0 <= k < r.value ==> !StartsWith(s[k..], p)
    ensures r.None? ==> forall k :: 0 <= k <= |s| ==> !StartsWith(s[k..], p)
    decreases |s|
  {
    if StartsWith(s, p) then Some(0)
    else if s == [] then None
    else
      var rest := IndexOf(s[1..], p);
      assert forall k :: 1 <= k <= |s| ==> s[k..] == s[1..][k - 1..];
      match rest
      case None => None
      case Some(k) => Some(k + 1)
  }

  /** `p in s` */
  predicate Contains(s: string, p: string) {
    IndexOf(s, p).Some?
  }

  /** A contained pattern starts where `find` says. */
  lemma ContainsAt(s: string, p: string)
    ensures Contains(s, p) ==> StartsWith(s[IndexOf(s, p).value..], p)
  {
    if Contains(s, p) {
      var r := IndexOf(s, p).value;
      assert s[r..][..|p|] == s[r..r + |p|];
    }
  }

  /** `p` occurs in `x + p` only at the end: nowhere inside `x` does an occurrence of `p` start. */
  predicate OnlyAtEnd(x: string, p: string) {
    forall k :: 0 <= k < |x| ==> !StartsWith((x + p)[k..], p)
  }

  /** The first occurrence of `p` in `x + p + rest` is the one right after `x`. */
  lemma IndexOfAfter(x: string, p: string, rest: string)
    requires OnlyAtEnd(x, p)
    ensures IndexOf(x + p + rest, p) == Some(|x|)
  {
    var s := x + p + rest;
    assert s[|x|..][..|p|] == p;
    forall k | 0 <= k < |x| && StartsWith(s[k..], p) ensures StartsWith((x + p)[k..], p) {
      assert (x + p)[k..][..|p|] == s[k..][..|p|];
    }
    var r := IndexOf(s, p);
    assert r.Some?;
    var i := r.value;
    assert i <= |x|;
    assert s[i..][..|p|] == s[i..i + |p|];
  }

  /** `s.partition(p)` when `p` occurs: the text before the first `p` and the text after it. */
  function Partition(s: string, p: string): (r: Option<(string, string)>)
    ensures r.None? <==> IndexOf(s, p).None?
  {
    match IndexOf(s, p)
    case None => None
    case Some(i) => Some((s[..i], s[i + |p|..]))
  }

  /** The two parts around the separator give back the text. */
  lemma PartitionSound(s: string, p: string)
    requires Partition(s, p).Some?
    ensures var (a, b) := Partition(s, p).value; s == a + (p + b)
  {
    var i := IndexOf(s, p).value;
    assert s == s[..i] + (s[i..i + |p|] + s[i + |p|..]);
  }

  /** Partitioning `x + p + rest` at its first `p` gives back `x` and `rest`. */
  lemma PartitionAfter(x: string, p: string, rest: string)
    requires OnlyAtEnd(x, p)
    ensures Partition(x + p + rest, p) == Some((x, rest))
  {
    IndexOfAfter(x, p, rest);
    var s := x + p + rest;
    assert s[..|x|] == x;
    assert s[|x| + |p|..] == rest;
  }

  /** The text between a leading `head` and a trailing `tail`, when both are there without overlapping. */
  function Between(s: string, head: string, tail: string): (r: Option<string>)
    ensures r.Some? ==> s == head + (r.value + tail)
  {
    if |s| < |head| + |tail| || !StartsWith(s, head) || !EndsWith(s, tail) then None
    else
      var mid := s[|head|..|s| - |tail|];
      assert s == s[..|head|] + mid + s[|s| - |tail|..];
      Some(mid)
  }

  /** The text wrapped in `head` and `tail` is found again between them. */
  lemma BetweenWrapped(head: string, x: string, tail: string)
    ensures Between(head + (x + tail), head, tail) == Some(x)
  {
    var s := head + (x + tail);
    assert s[..|head|] == head;
    assert s[|s| - |tail|..] == tail;
    assert s[|head|..|s| - |tail|] == x;
  }

  /** `s.replace(p, r, 1)` */
  function ReplaceFirst(s: string, p: string, r: string): string {
    match IndexOf(s, p)
    case None => s
    case Some(k) => s[..k] + r + s[k + |p|..]
  }

  /**
   * Removing the first occurrence of a character shortens the text by one,
   * leaves no occurrence before that position, and putting it back there
   * restores the text.
   */
  lemma RemoveFirst(s: string, c: char)
    requires Contains(s, [c])
    ensures var p := IndexOf(s, [c]).value;
      var r := ReplaceFirst(s, [c], "");
      && |r| == |s| - 1
      && r[..p] + [c] + r[p..] == s
      && forall k :: 0 <= k < p ==> r[k] != c
  {
    var p := IndexOf(s, [c]).value;
    var r := s[..p] + "" + s[p + 1..];
    assert r[..p] == s[..p] && r[p..] == s[p + 1..];
    assert s[p..][..1] == [c];
    assert s == s[..p] + [c] + s[p + 1..];
    forall k | 0 <= k < p ensures r[k] != c {
      assert !StartsWith(s[k..], [c]);
      assert s[k..][..1] == [s[k]];
    }
  }

  /** `s.replace(p, r)`: left-to-right, non-overlapping. */
  function ReplaceAll(s: string, p: string, r: string): string
    requires |p| > 0
    decreases |s|
  {
    if s == [] then []
    else if StartsWith(s, p) then r + ReplaceAll(s[|p|..], p, r)
    else [s[0]] + ReplaceAll(s[1..], p, r)
  }

  /** Replacing a text that does not occur changes nothing. */
  lemma {:induction false} ReplaceAllAbsent(s: string, p: string, r: string)
    requires |p| > 0 && !Contains(s, p)
    ensures ReplaceAll(s, p, r) == s
    decreases |s|
  {
    if s != [] {
      assert !StartsWith(s[0..], p);
      assert forall k :: 0 <= k <= |s| - 1 ==> s[1..][k..] == s[k + 1..];
      ReplaceAllAbsent(s[1..], p, r);
    }
  }

  /** `s.count(p)`: non-overlapping occurrences, left to right. */
  function CountOf(s: string, p: string): nat
    requires |p| > 0
    decreases |s|
  {
    if s == [] then 0
    else if StartsWith(s, p) then 1 + CountOf(s[|p|..], p)
    else CountOf(s[1..], p)
  }

  /** Nothing to count in a string shorter than the pattern. */
  lemma {:induction false} CountOfTooShort(s: string, p: string)
    requires 0 < |p| && |s| < |p|
    ensures CountOf(s, p) == 0
    decreases |s|
  {
    if s != [] {
      CountOfTooShort(s[1..], p);
    }
  }

  /** A string shorter than two copies of the pattern holds at most one. */
  lemma {:induction false} CountOfBelowTwo(s: string, p: string)
    requires 0 < |p| && |s| < 2 * |p|
    ensures CountOf(s, p) < 2
    decreases |s|
  {
    if s != [] {
      if StartsWith(s, p) {
        CountOfTooShort(s[|p|..], p);
      } else {
        CountOfBelowTwo(s[1..], p);
      }
    }
  }

  /** `"".join(parts)` */
  function Concat(parts: seq<string>): string {
    if parts == [] then [] else parts[0] + Concat(parts[1..])
  }

  lemma ConcatAppend(a: seq<string>, b: seq<string>)
    ensures Concat(a + b) == Concat(a) + Concat(b)
  {
    if a != [] {
      assert (a + b)[1..] == a[1..] + b;
      ConcatAppend(a[1..], b);
    } else {
      assert a + b == b;
    }
  }

  /** `sep.join(parts)` */
  function Join(sep: string, parts: seq<string>): string {
    if parts == [] then []
    else if |parts| == 1 then parts[0]
    else parts[0] + sep + Join(sep, parts[1..])
  }

  /** A join of several parts is the first part, the separator, and the join of the rest. */
  lemma JoinCons(sep: string, parts: seq<string>)
    requires |parts| > 1
    ensures Join(sep, parts) == parts[0] + (sep + Join(sep, parts[1..]))
  {
  }

  /** A join of non-empty parts starts with the first character of the first part. */
  lemma JoinFirst(sep: string, parts: seq<string>)
    requires parts != [] && parts[0] != []
    ensures Join(sep, parts) != [] && Join(sep, parts)[0] == parts[0][0]
  {
  }

  lemma JoinAppend(sep: string, a: seq<string>, b: seq<string>)
    requires a != [] && b != []
    ensures Join(sep, a + b) == Join(sep, a) + sep + Join(sep, b)
  {
    if |a| == 1 {
      assert (a + b)[1..] == b;
    } else {
      assert (a + b)[1..] == a[1..] + b;
      JoinAppend(sep, a[1..], b);
    }
  }

  /** Every line blank makes the joined text blank, and conversely. */
  lemma JoinBlank(sep: string, parts: seq<string>)
    requires IsBlank(sep)
    ensures IsBlank(Join(sep, parts)) <==> forall i :: 0 <= i < |parts| ==> IsBlank(parts[i])
  {
    if |parts| > 1 {
      JoinBlank(sep, parts[1..]);
      var j := Join(sep, parts);
      assert j == parts[0] + sep + Join(sep, parts[1..]);
      if IsBlank(j) {
        assert IsBlank(parts[0]) by {
          forall i | 0 <= i < |parts[0]| ensures IsSpace(parts[0][i]) { assert j[i] == parts[0][i]; }
        }
        assert IsBlank(Join(sep, parts[1..])) by {
          var off := |parts[0]| + |sep|;
          forall i | 0 <= i < |Join(sep, parts[1..])| ensures IsSpace(Join(sep, parts[1..])[i]) {
            assert j[off + i] == Join(sep, parts[1..])[i];
          }
        }
      }
    }
  }

  /** Length of the first line of `s`, terminator included. */
  function FirstLineLength(s: string): (n: nat)
    requires s != []
    ensures 0 < n <= |s|
    decreases |s|
  {
    if IsLineBreak(s[0]) then (if s[0] == '\r' && |s| > 1 && s[1] == '\n' then 2 else 1)
    else if |s| == 1 then 1
    else 1 + FirstLineLength(s[1..])
  }

  /** `s.splitlines(keepends=True)` */
  function SplitLinesKeepEnds(s: string): (ls: seq<string>)
    ensures Concat(ls) == s
    ensures ls == [] <==> s == []
    ensures forall i :: 0 <= i < |ls| ==> ls[i] != []
    decreases |s|
  {
    if s == [] then []
    else
      var n := FirstLineLength(s);
      var rest := SplitLinesKeepEnds(s[n..]);
      assert ([s[..n]] + rest)[1..] == rest;
      assert s == s[..n] + s[n..];
      [s[..n]] + rest
  }

  /** A kept-ends line without its terminator. */
  function LineBody(l: string): string {
    if |l| >= 2 && l[|l| - 2..] == "\r\n" then l[..|l| - 2]
    else if |l| >= 1 && IsLineBreak(l[|l| - 1]) then l[..|l| - 1]
    else l
  }

  /** `s.splitlines()` */
  function SplitLines(s: string): (ls: seq<string>)
    ensures |ls| == |SplitLinesKeepEnds(s)|
    ensures ls == [] <==> s == []
  {
    var k := SplitLinesKeepEnds(s);
    seq(|k|, i requires 0 <= i < |k| => LineBody(k[i]))
  }

  /** `s.split(sep)` for a one-character separator. */
  function SplitOn(s: string, sep: char): (parts: seq<string>)
    ensures |parts| >= 1
    ensures Join([sep], parts) == s
    decreases |s|
  {
    if s == [] then [[]]
    else
      var rest := SplitOn(s[1..], sep);
      if s[0] == sep then
        assert ([[]] + rest)[1..] == rest;
        [[]] + rest
      else
        var parts := [[s[0]] + rest[0]] + rest[1..];
        assert parts[1..] == rest[1..];
        assert Join([sep], parts) == s by {
          if |rest| > 1 {
            assert Join([sep], rest) == rest[0] + [sep] + Join([sep], rest[1..]);
          }
        }
        parts
  }

  /** Number of leading characters of `s` that are not whitespace. */
  function NonSpaceSpan(s: string): (k: nat)
    ensures k <= |s|
    ensures forall i :: 0 <= i < k ==> !IsSpace(s[i])
    ensures k < |s| ==> IsSpace(s[k])
  {
    if s == [] || IsSpace(s[0]) then 0 else 1 + NonSpaceSpan(s[1..])
  }

  /** The first part of a split is the text before the first separator. */
  lemma {:induction false} SplitOnFirst(a: string, sep: char, b: string)
    requires forall i :: 0 <= i < |a| ==> a[i] != sep
    ensures SplitOn(a + [sep] + b, sep)[0] == a
    decreases |a|
  {
    var s := a + [sep] + b;
    if a != [] {
      assert s[1..] == a[1..] + [sep] + b;
      SplitOnFirst(a[1..], sep, b);
      assert a == [a[0]] + a[1..];
    }
  }

  /** `s.split()`: the maximal runs of non-whitespace. */
  function Words(s: string): (ws: seq<string>)
    ensures forall i :: 0 <= i < |ws| ==> IsWord(ws[i])
    decreases |s|
  {
    var t := LStrip(s);
    if t == [] then []
    else
      var k := NonSpaceSpan(t);
      assert k > 0;
      assert IsWord(t[..k]);
      [t[..k]] + Words(t[k..])
  }

  /** A run of non-whitespace characters: a word as `split()` yields it. */
  predicate IsWord(w: string) {
    w != [] && forall j :: 0 <= j < |w| ==> !IsSpace(w[j])
  }

  /** A word followed by whitespace or nothing is the first word. */
  lemma WordsCons(w: string, rest: string)
    requires IsWord(w) && (rest == [] || IsSpace(rest[0]))
    ensures Words(w + rest) == [w] + Words(rest)
  {
    var s := w + rest;
    LStripNoLead(s);
    NonSpaceSpanWord(w, rest);
    assert s[..|w|] == w && s[|w|..] == rest;
    WordsUnfold(s, |w|);
  }

  /** Text that opens with a non-space character is its own `lstrip`. */
  lemma LStripNoLead(s: string)
    requires s != [] && !IsSpace(s[0])
    ensures LStrip(s) == s
  {
    assert Lead(s, 0) == 0;
  }

  /** One unfolding of `Words` on text without leading whitespace. */
  lemma WordsUnfold(s: string, k: nat)
    requires s != [] && LStrip(s) == s && k == NonSpaceSpan(s)
    ensures Words(s) == [s[..k]] + Words(s[k..])
  {
  }

  lemma {:induction false} NonSpaceSpanWord(w: string, rest: string)
    requires IsWord(w) && (rest == [] || IsSpace(rest[0]))
    ensures NonSpaceSpan(w + rest) == |w|
    decreases |w|
  {
    if |w| > 1 {
      assert (w + rest)[1..] == w[1..] + rest;
      NonSpaceSpanWord(w[1..], rest);
    } else {
      assert (w + rest)[1..] == rest;
    }
  }

  /** Leading whitespace does not change the words. */
  lemma WordsSpace(x: string)
    ensures Words(" " + x) == Words(x)
  {
    LStripSpace(x);
  }

  /** A single word splits into itself. */
  lemma WordsOne(w: string)
    requires IsWord(w)
    ensures Words(w) == [w]
  {
    WordsCons(w, []);
    assert w + [] == w;
  }

  /** The first word of a join is its first part, and the rest are the words of the other parts. */
  lemma WordsJoinStep(ws: seq<string>)
    requires |ws| > 1 && IsWord(ws[0]) && IsWord(ws[1])
    ensures Words(Join(" ", ws)) == [ws[0]] + Words(Join(" ", ws[1..]))
  {
    var rest := Join(" ", ws[1..]);
    JoinFirst(" ", ws[1..]);
    JoinCons(" ", ws);
    WordsCons(ws[0], " " + rest);
    WordsSpace(rest);
  }

  /** Joining words with single spaces and splitting again gives the words back. */
  lemma {:induction false} WordsJoin(ws: seq<string>)
    requires forall i :: 0 <= i < |ws| ==> IsWord(ws[i])
    ensures Words(Join(" ", ws)) == ws
  {
    if ws == [] {
      assert Join(" ", ws) == [];
    } else if |ws| == 1 {
      WordsOne(ws[0]);
    } else {
      var tail := ws[1..];
      assert forall i :: 0 <= i < |tail| ==> IsWord(tail[i]) by {
        assert forall i :: 0 <= i < |tail| ==> tail[i] == ws[i + 1];
      }
      WordsJoin(tail);
      WordsJoinStep(ws);
      assert ws == [ws[0]] + tail;
    }
  }

  function LowerChar(c: char): char {
    if 'A' <= c <= 'Z' then (c as int + 32) as char else c
  }

  /** `s.lower()` on ASCII letters. */
  function LowerAscii(s: string): (r: string)
    ensures |r| == |s|
  {
    seq(|s|, i requires 0 <= i < |s| => LowerChar(s[i]))
  }
}
