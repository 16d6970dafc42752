/**
 * Long fill-in-the-middle samples: the code is cut into sections at `def`/`class`
 * lines, each section into windows of at most a fixed number of lines, and each
 * chosen chunk is located in the full code to take the lines before and after it
 * as prefix and suffix.
 */
module LongFim {
  import opened Wrappers
  import opened Text
  import opened Json
  import opened Streams
  import opened Fim

  function Min(a: nat, b: nat): nat {
    if a <= b then a else b
  }

  // ---------------------------------------------------------------------------
  // Section starts

  /**
   * What the pattern `^\s*(def|class)\s+[\w_]+\s*\(?.*\)?:` needs after the keyword:
   * at least one whitespace character, a word character, and a ':' somewhere after it.
   */
  predicate DefTail(u: string) {
    var v := LStrip(u);
    |v| < |u| && v != [] && IsWordChar(v[0]) && ':' in v[1..]
  }

  /** The pattern matches at the start of the line. */
  predicate IsDefLine(line: string) {
    var t := LStrip(line);
    (|t| >= 3 && t[..3] == "def" && DefTail(t[3..]))
    || (|t| >= 5 && t[..5] == "class" && DefTail(t[5..]))
  }

  function DefFlags(lines: seq<string>): (flags: seq<bool>)
    ensures |flags| == |lines|
  {
    seq(|lines|, i requires 0 <= i < |lines| => IsDefLine(lines[i]))
  }

  /** The positions holding `true`, in increasing order, then the length. */
  function StartsOf(flags: seq<bool>): (starts: seq<nat>)
    ensures |starts| >= 1 && starts[|starts| - 1] == |flags|
    ensures Increasing(starts)
    ensures forall k :: 0 <= k < |starts| - 1 ==> starts[k] < |flags| && flags[starts[k]]
    ensures forall i :: 0 <= i < |flags| && flags[i] ==> i in starts
  {
    Positions(flags) + [|flags|]
  }

  /** `func_start_idxs`: the positions of the def/class lines in increasing order, then `len(lines)`. */
  function SectionStarts(lines: seq<string>): (starts: seq<nat>)
    ensures |starts| >= 1 && starts[|starts| - 1] == |lines|
    ensures Increasing(starts)
  {
    StartsOf(DefFlags(lines))
  }

  /** The section starts before the end are exactly the def/class lines. */
  lemma SectionStartsAreDefs(lines: seq<string>)
    ensures forall k :: 0 <= k < |SectionStarts(lines)| - 1 ==>
      SectionStarts(lines)[k] < |lines| && IsDefLine(lines[SectionStarts(lines)[k]])
    ensures forall i :: 0 <= i < |lines| && IsDefLine(lines[i]) ==> i in SectionStarts(lines)
  {
    var flags := DefFlags(lines);
    assert forall i :: 0 <= i < |lines| ==> flags[i] == IsDefLine(lines[i]);
  }

  // ---------------------------------------------------------------------------
  // Line spans

  /** The lines `lo` up to, not including, `hi`. */
  datatype Span = Span(lo: nat, hi: nat)

  /** The spans are non-empty, in order, and cover `[lo, hi)` with no gap and no overlap. */
  predicate Tiles(ws: seq<Span>, lo: nat, hi: nat)
    decreases |ws|
  {
    if ws == [] then lo == hi
    else ws[0].lo == lo && ws[0].lo < ws[0].hi && Tiles(ws[1..], ws[0].hi, hi)
  }

  predicate Bounded(ws: seq<Span>, size: nat) {
    forall k :: 0 <= k < |ws| ==> ws[k].hi - ws[k].lo <= size
  }

  predicate Within(ws: seq<Span>, lo: nat, hi: nat) {
    forall k :: 0 <= k < |ws| ==> lo <= ws[k].lo <= ws[k].hi <= hi
  }

  /** `range(0, len(func_lines), size)` over the section `[lo, hi)`, as absolute spans. */
  function Windows(lo: nat, hi: nat, size: nat): seq<Span>
    requires size > 0
    decreases hi - lo
  {
    if lo >= hi then [] else [Span(lo, Min(lo + size, hi))] + Windows(lo + size, hi, size)
  }

  /** The windows of a section tile it, each at most `size` lines long. */
  lemma {:induction false} WindowsTile(lo: nat, hi: nat, size: nat)
    requires size > 0 && lo <= hi
    ensures Tiles(Windows(lo, hi, size), lo, hi)
    ensures Bounded(Windows(lo, hi, size), size)
    decreases hi - lo
  {
    if lo < hi {
      var ws := Windows(lo, hi, size);
      WindowsTile(Min(lo + size, hi), hi, size);
      if lo + size < hi {
        assert ws[1..] == Windows(lo + size, hi, size);
      } else {
        assert Windows(lo + size, hi, size) == [];
        assert ws[1..] == [];
      }
    }
  }

  lemma {:induction false} TilesWithin(ws: seq<Span>, lo: nat, hi: nat)
    requires Tiles(ws, lo, hi)
    ensures lo <= hi && Within(ws, lo, hi)
    decreases |ws|
  {
    if ws != [] {
      TilesWithin(ws[1..], ws[0].hi, hi);
      assert forall k :: 1 <= k < |ws| ==> ws[k] == ws[1..][k - 1];
    }
  }

  lemma {:induction false} TilesAppend(a: seq<Span>, b: seq<Span>, lo: nat, mid: nat, hi: nat)
    requires Tiles(a, lo, mid) && Tiles(b, mid, hi)
    ensures Tiles(a + b, lo, hi)
    decreases |a|
  {
    if a == [] {
      assert a + b == b;
    } else {
      TilesAppend(a[1..], b, a[0].hi, mid, hi);
      assert (a + b)[1..] == a[1..] + b;
    }
  }

  /** The windows of every section, section by section. */
  function SectionSpans(starts: seq<nat>, size: nat): seq<Span>
    requires size > 0
  {
    if |starts| < 2 then []
    else SectionSpans(starts[..|starts| - 1], size) + Windows(starts[|starts| - 2], starts[|starts| - 1], size)
  }

  /** The section windows tile the code from the first section start to the end. */
  lemma {:induction false} SectionSpansTile(starts: seq<nat>, size: nat)
    requires size > 0 && |starts| >= 1 && Increasing(starts)
    ensures Tiles(SectionSpans(starts, size), starts[0], starts[|starts| - 1])
    ensures Bounded(SectionSpans(starts, size), size)
  {
    if |starts| >= 2 {
      var n := |starts| - 1;
      var init := starts[..n];
      SectionSpansTile(init, size);
      assert init[0] == starts[0] && init[n - 1] == starts[n - 1];
      WindowsTile(starts[n - 1], starts[n], size);
      TilesAppend(SectionSpans(init, size), Windows(starts[n - 1], starts[n], size), starts[0], starts[n - 1], starts[n]);
    }
  }

  /** Every window lies inside one section. */
  lemma {:induction false} SectionSpansInside(starts: seq<nat>, size: nat)
    requires size > 0 && Increasing(starts)
    ensures forall j :: 0 <= j < |SectionSpans(starts, size)| ==>
      exists k :: 0 <= k < |starts| - 1 &&
        starts[k] <= SectionSpans(starts, size)[j].lo && SectionSpans(starts, size)[j].hi <= starts[k + 1]
  {
    if |starts| >= 2 {
      var n := |starts| - 1;
      var init := starts[..n];
      var prev := SectionSpans(init, size);
      var last := Windows(starts[n - 1], starts[n], size);
      assert Increasing(init);
      SectionSpansInside(init, size);
      WindowsTile(starts[n - 1], starts[n], size);
      TilesWithin(last, starts[n - 1], starts[n]);
      assert SectionSpans(starts, size) == prev + last;
      forall j | 0 <= j < |prev + last|
        ensures exists k :: 0 <= k < |starts| - 1 && starts[k] <= (prev + last)[j].lo && (prev + last)[j].hi <= starts[k + 1]
      {
        if j < |prev| {
          var k :| 0 <= k < |init| - 1 && init[k] <= prev[j].lo && prev[j].hi <= init[k + 1];
          assert (prev + last)[j] == prev[j];
          assert init[k] == starts[k] && init[k + 1] == starts[k + 1];
        } else {
          assert (prev + last)[j] == last[j - |prev|];
          assert starts[n - 1] <= last[j - |prev|].lo && last[j - |prev|].hi <= starts[n];
          assert starts[n - 1] <= (prev + last)[j].lo && (prev + last)[j].hi <= starts[n - 1 + 1];
        }
      }
    } else {
      assert SectionSpans(starts, size) == [];
    }
  }

  // ---------------------------------------------------------------------------
  // Chunk texts

  /** `xs[lo:hi]`, with Python's clamping of bounds past the end, taken one element at a time. */
  function Slice<T>(xs: seq<T>, lo: nat, hi: nat): seq<T>
    decreases hi - lo
  {
    if lo >= hi || lo >= |xs| then [] else [xs[lo]] + Slice(xs, lo + 1, hi)
  }

  /** Within bounds, the slice is the subsequence `xs[lo..hi]`. */
  lemma {:induction false} SliceInRange<T>(xs: seq<T>, lo: nat, hi: nat)
    requires lo <= hi <= |xs|
    ensures Slice(xs, lo, hi) == xs[lo..hi]
    decreases hi - lo
  {
    if lo < hi {
      SliceInRange(xs, lo + 1, hi);
      assert xs[lo..hi] == [xs[lo]] + xs[lo + 1..hi];
    }
  }

  /** Past the end, the slice stops at the end. */
  lemma {:induction false} SliceClamped<T>(xs: seq<T>, lo: nat, hi: nat)
    requires |xs| <= hi
    ensures Slice(xs, lo, hi) == Slice(xs, lo, |xs|)
    decreases hi - lo
  {
    if lo < |xs| {
      SliceClamped(xs, lo + 1, hi);
    }
  }

  /** `"\n".join(lines[w.lo:w.hi]).strip()` */
  function Piece(lines: seq<string>, w: Span): string {
    Strip(Join("\n", Slice(lines, w.lo, w.hi)))
  }

  /** A span's piece, kept only when it is not blank. */
  function PieceList(lines: seq<string>, w: Span): seq<string> {
    var c := Piece(lines, w);
    if c == [] then [] else [c]
  }

  /** The non-blank pieces of the spans, in order. */
  function Pieces(lines: seq<string>, ws: seq<Span>): seq<string> {
    if ws == [] then [] else PieceList(lines, ws[0]) + Pieces(lines, ws[1..])
  }

  lemma {:induction false} PiecesAppend(lines: seq<string>, a: seq<Span>, b: seq<Span>)
    ensures Pieces(lines, a + b) == Pieces(lines, a) + Pieces(lines, b)
    decreases |a|
  {
    if a == [] {
      assert a + b == b;
    } else {
      assert (a + b)[1..] == a[1..] + b;
      PiecesAppend(lines, a[1..], b);
    }
  }

  /** Not blank, and no whitespace at either end: what `strip()` returns when non-empty. */
  predicate Trimmed(c: string) {
    c != [] && !IsSpace(c[0]) && !IsSpace(c[|c| - 1])
  }

  predicate AllTrimmed(cs: seq<string>) {
    forall k :: 0 <= k < |cs| ==> Trimmed(cs[k])
  }

  lemma AllTrimmedAppend(a: seq<string>, b: seq<string>)
    requires AllTrimmed(a) && AllTrimmed(b)
    ensures AllTrimmed(a + b)
  {
    assert forall k :: |a| <= k < |a + b| ==> (a + b)[k] == b[k - |a|];
  }

  lemma PieceListTrimmed(lines: seq<string>, w: Span)
    ensures AllTrimmed(PieceList(lines, w))
  {
  }

  /** Every kept piece is trimmed. */
  lemma {:induction false} PiecesTrimmed(lines: seq<string>, ws: seq<Span>)
    ensures AllTrimmed(Pieces(lines, ws))
  {
    if ws != [] {
      PiecesTrimmed(lines, ws[1..]);
      PieceListTrimmed(lines, ws[0]);
      AllTrimmedAppend(PieceList(lines, ws[0]), Pieces(lines, ws[1..]));
    }
  }

  /** The non-blank pieces of the section windows, in order. */
  function Body(lines: seq<string>, size: nat): seq<string>
    requires size > 0
  {
    Pieces(lines, SectionSpans(SectionStarts(lines), size))
  }

  /** The header: the lines before the first section, joined and stripped. */
  function Header(lines: seq<string>): string {
    Strip(Join("\n", lines[..SectionStarts(lines)[0]]))
  }

  /** The result of `split_code_into_function_chunks` on the code whose lines are `lines`. */
  function FunctionChunks(lines: seq<string>, size: nat): seq<string>
    requires size > 0
  {
    var starts := SectionStarts(lines);
    var body := Body(lines, size);
    var header := Header(lines);
    var withHeader := if starts[0] > 0 && header != [] then [header] + body else body;
    var full := Strip(Join("\n", lines));
    if |starts| <= 1 && full != [] then [full] else withHeader
  }

  /** No chunk is blank, and none has whitespace at either end. */
  lemma ChunksTrimmed(lines: seq<string>, size: nat)
    requires size > 0
    ensures AllTrimmed(FunctionChunks(lines, size))
  {
    if |SectionStarts(lines)| <= 1 && Strip(Join("\n", lines)) != [] {
      WholeChunkTrimmed(lines, size);
    } else {
      SectionChunksTrimmed(lines, size);
    }
  }

  lemma WholeChunkTrimmed(lines: seq<string>, size: nat)
    requires size > 0
    requires |SectionStarts(lines)| <= 1 && Strip(Join("\n", lines)) != []
    ensures AllTrimmed(FunctionChunks(lines, size))
  {
    assert FunctionChunks(lines, size) == [Strip(Join("\n", lines))];
  }

  lemma SectionChunksTrimmed(lines: seq<string>, size: nat)
    requires size > 0
    requires !(|SectionStarts(lines)| <= 1 && Strip(Join("\n", lines)) != [])
    ensures AllTrimmed(FunctionChunks(lines, size))
  {
    if SectionStarts(lines)[0] > 0 && Header(lines) != [] {
      HeaderChunksTrimmed(lines, size);
    } else {
      BodyChunksTrimmed(lines, size);
    }
  }

  lemma HeaderChunksTrimmed(lines: seq<string>, size: nat)
    requires size > 0
    requires !(|SectionStarts(lines)| <= 1 && Strip(Join("\n", lines)) != [])
    requires SectionStarts(lines)[0] > 0 && Header(lines) != []
    ensures AllTrimmed(FunctionChunks(lines, size))
  {
    HeaderCase(lines, size);
    PiecesTrimmed(lines, SectionSpans(SectionStarts(lines), size));
    ConsTrimmed(Header(lines), Body(lines, size));
  }

  /** With sections and a non-blank header, the chunks are the header, then the body. */
  lemma HeaderCase(lines: seq<string>, size: nat)
    requires size > 0
    requires !(|SectionStarts(lines)| <= 1 && Strip(Join("\n", lines)) != [])
    requires SectionStarts(lines)[0] > 0 && Header(lines) != []
    ensures FunctionChunks(lines, size) == [Header(lines)] + Body(lines, size)
  {
  }

  lemma ConsTrimmed(c: string, cs: seq<string>)
    requires Trimmed(c) && AllTrimmed(cs)
    ensures AllTrimmed([c] + cs)
  {
    AllTrimmedAppend([c], cs);
  }

  lemma BodyChunksTrimmed(lines: seq<string>, size: nat)
    requires size > 0
    requires !(|SectionStarts(lines)| <= 1 && Strip(Join("\n", lines)) != [])
    requires !(SectionStarts(lines)[0] > 0 && Header(lines) != [])
    ensures AllTrimmed(FunctionChunks(lines, size))
  {
    assert FunctionChunks(lines, size) == Body(lines, size);
    PiecesTrimmed(lines, SectionSpans(SectionStarts(lines), size));
  }

  /**
   * The section windows tile the positions from the first `true` flag to the end,
   * each at most `size` long, and no `true` flag lies strictly inside a window.
   */
  lemma {:induction false} SectionsOfFlags(flags: seq<bool>, size: nat)
    requires size > 0
    ensures Tiles(SectionSpans(StartsOf(flags), size), StartsOf(flags)[0], |flags|)
    ensures Bounded(SectionSpans(StartsOf(flags), size), size)
    ensures forall j, i :: (0 <= j < |SectionSpans(StartsOf(flags), size)| && 0 <= i < |flags| &&
                            SectionSpans(StartsOf(flags), size)[j].lo < i < SectionSpans(StartsOf(flags), size)[j].hi)
                           ==> !flags[i]
  {
    var starts := StartsOf(flags);
    var spans := SectionSpans(starts, size);
    SectionSpansTile(starts, size);
    SectionSpansInside(starts, size);
    NoFlagInside(flags, starts, spans);
  }

  /** A position strictly between two consecutive increasing starts is not a start. */
  lemma NotBetween(starts: seq<nat>, k: nat, i: nat)
    requires Increasing(starts) && k + 1 < |starts| && starts[k] < i < starts[k + 1]
    ensures i !in starts
  {
    forall m | 0 <= m < |starts|
      ensures starts[m] != i
    {
      if m < k {
        assert starts[m] < starts[k];
      } else if m > k + 1 {
        assert starts[k + 1] < starts[m];
      }
    }
  }

  lemma NoFlagInside(flags: seq<bool>, starts: seq<nat>, spans: seq<Span>)
    requires Increasing(starts)
    requires forall i :: 0 <= i < |flags| && flags[i] ==> i in starts
    requires forall j :: 0 <= j < |spans| ==>
      exists k :: 0 <= k < |starts| - 1 && starts[k] <= spans[j].lo && spans[j].hi <= starts[k + 1]
    ensures forall j, i :: 0 <= j < |spans| && 0 <= i < |flags| && spans[j].lo < i < spans[j].hi ==> !flags[i]
  {
    forall j, i | 0 <= j < |spans| && 0 <= i < |flags| && spans[j].lo < i < spans[j].hi
      ensures !flags[i]
    {
      var k :| 0 <= k < |starts| - 1 && starts[k] <= spans[j].lo && spans[j].hi <= starts[k + 1];
      NotBetween(starts, k, i);
    }
  }

  /**
   * Sections are the line ranges between consecutive def/class lines, the last
   * ending at the end of the code: their windows tile the lines from the first
   * def/class line on, each window is at most `size` lines, and no def/class
   * line lies strictly inside a window.
   */
  lemma SectionsOfCode(lines: seq<string>, size: nat)
    requires size > 0
    ensures Tiles(SectionSpans(SectionStarts(lines), size), SectionStarts(lines)[0], |lines|)
    ensures Bounded(SectionSpans(SectionStarts(lines), size), size)
    ensures forall j, i :: (0 <= j < |SectionSpans(SectionStarts(lines), size)| && 0 <= i < |lines| &&
                            SectionSpans(SectionStarts(lines), size)[j].lo < i < SectionSpans(SectionStarts(lines), size)[j].hi)
                           ==> !IsDefLine(lines[i])
  {
    var flags := DefFlags(lines);
    SectionsOfFlags(flags, size);
    var spans := SectionSpans(SectionStarts(lines), size);
    assert spans == SectionSpans(StartsOf(flags), size);
    forall j, i | 0 <= j < |spans| && 0 <= i < |lines| && spans[j].lo < i < spans[j].hi
      ensures !IsDefLine(lines[i])
    {
      assert !flags[i];
    }
  }

  /** With def/class lines present, the chunks are the header when non-blank, then the section pieces. */
  lemma ChunksWithSections(lines: seq<string>, size: nat)
    requires size > 0
    requires exists i :: 0 <= i < |lines| && IsDefLine(lines[i])
    ensures FunctionChunks(lines, size) == (if Header(lines) != [] then [Header(lines)] else []) + Body(lines, size)
  {
    var starts := SectionStarts(lines);
    var i :| 0 <= i < |lines| && IsDefLine(lines[i]);
    SectionStartsAreDefs(lines);
    assert i in starts;
    if starts[0] == 0 {
      assert lines[..starts[0]] == [];
    }
  }

  /** With no def/class line, the result is the whole stripped code if non-blank, else nothing. */
  lemma ChunksWithoutSections(lines: seq<string>, size: nat)
    requires size > 0
    requires forall i :: 0 <= i < |lines| ==> !IsDefLine(lines[i])
    ensures FunctionChunks(lines, size) ==
      if Strip(Join("\n", lines)) != [] then [Strip(Join("\n", lines))] else []
  {
    var flags := DefFlags(lines);
    assert forall i :: 0 <= i < |flags| ==> !flags[i];
    PositionsNone(flags);
    assert lines[..SectionStarts(lines)[0]] == lines;
  }

  /** The `for i, line in enumerate(lines)` loop and the final `append(len(lines))`. */
  method FindSectionStarts(lines: seq<string>) returns (starts: seq<nat>)
    ensures starts == SectionStarts(lines)
  {
    starts := [];
    var i := 0;
    while i < |lines|
      invariant i <= |lines|
      invariant starts == Positions(DefFlags(lines)[..i])
    {
      DefStep(lines, i);
      if IsDefLine(lines[i]) {
        starts := starts + [i];
      }
      i := i + 1;
    }
    DefEnd(lines);
    starts := starts + [|lines|];
  }

  /** One more line adds its index exactly when it opens a section. */
  lemma DefStep(lines: seq<string>, i: nat)
    requires i < |lines|
    ensures Positions(DefFlags(lines)[..i + 1])
      == Positions(DefFlags(lines)[..i]) + (if IsDefLine(lines[i]) then [i] else [])
  {
    PositionsStep(DefFlags(lines), i);
  }

  /** Past the last line, the positions found and the length are the section starts. */
  lemma DefEnd(lines: seq<string>)
    ensures Positions(DefFlags(lines)[..|lines|]) + [|lines|] == SectionStarts(lines)
  {
    assert DefFlags(lines)[..|lines|] == DefFlags(lines);
  }

  /**
   * One turn of the inner loop: `"\n".join(func_lines[i:i + size]).strip()` for the
   * section `lines[start:end]`, appended to the chunks of the windows before it
   * when it is not blank.
   */
  method TakeWindow(lines: seq<string>, start: nat, end: nat, i: nat, size: nat, chunks: seq<string>)
    returns (next: seq<string>)
    requires size > 0 && start <= end <= |lines| && i < end - start && Aligned(start, start + i, size)
    requires chunks == Windowed(PieceAt(lines), start, start + i, end, size)
    ensures next == Windowed(PieceAt(lines), start, start + (i + size), end, size)
  {
    var funcLines := lines[start..end];
    var chunkLines := funcLines[i..Min(i + size, |funcLines|)];
    WindowSlice(lines, start, end, i, size);
    ghost var w := Span(start + i, Min(start + i + size, end));
    assert chunkLines == Slice(lines, w.lo, w.hi);
    var chunkStr := Strip(Join("\n", chunkLines));
    next := chunks;
    if chunkStr != [] {
      next := next + [chunkStr];
    } else {
      assert chunks + [] == chunks;
    }
    assert next == chunks + PieceAt(lines)(w);
    WindowedStep(PieceAt(lines), start, end, size, i, chunks, next);
  }

  /** A window of `func_lines` is the same window of the whole. */
  lemma WindowSlice<T>(xs: seq<T>, start: nat, end: nat, i: nat, size: nat)
    requires start <= end <= |xs| && i < end - start
    ensures xs[start..end][i..Min(i + size, end - start)] == Slice(xs, start + i, Min(start + i + size, end))
  {
    SliceOfSlice(xs, start, end, i, Min(i + size, end - start));
    SliceInRange(xs, start + i, Min(start + i + size, end));
  }

  /** The pieces of a section's windows: the first window's piece, then the pieces of the windows after it. */
  lemma PiecesOfWindows(lines: seq<string>, lo: nat, hi: nat, size: nat)
    requires size > 0 && lo < hi
    ensures Pieces(lines, Windows(lo, hi, size))
         == PieceList(lines, Span(lo, Min(lo + size, hi))) + Pieces(lines, Windows(lo + size, hi, size))
  {
    var ws := Windows(lo, hi, size);
    assert ws == [Span(lo, Min(lo + size, hi))] + Windows(lo + size, hi, size);
    assert ws[1..] == Windows(lo + size, hi, size);
  }

  /** `stop` is reached from `s` in steps of `size`. */
  predicate Aligned(s: nat, stop: nat, size: nat)
    decreases stop - s
  {
    s == stop || (size > 0 && s + size <= stop && Aligned(s + size, stop, size))
  }

  lemma {:induction false} AlignedStep(s: nat, stop: nat, size: nat)
    requires size > 0 && Aligned(s, stop, size)
    ensures Aligned(s, stop + size, size)
    decreases stop - s
  {
    if s != stop {
      AlignedStep(s + size, stop, size);
    }
  }

  /**
   * What `piece` gives for the windows starting at `s`, `s + size`, ... before
   * `stop`, each cut at `hi`, in order.
   */
  function Windowed(piece: Span -> seq<string>, s: nat, stop: nat, hi: nat, size: nat): seq<string>
    requires size > 0
    decreases stop - s
  {
    if s >= stop then [] else piece(Span(s, Min(s + size, hi))) + Windowed(piece, s + size, stop, hi, size)
  }

  /** One more window at the end. */
  lemma {:induction false} WindowedSnoc(piece: Span -> seq<string>, s: nat, stop: nat, hi: nat, size: nat)
    requires size > 0 && Aligned(s, stop, size)
    ensures Windowed(piece, s, stop + size, hi, size) == Windowed(piece, s, stop, hi, size) + piece(Span(stop, Min(stop + size, hi)))
    decreases stop - s
  {
    var last := piece(Span(stop, Min(stop + size, hi)));
    if s == stop {
      assert Windowed(piece, s + size, stop + size, hi, size) == [];
      assert [] + last == last;
    } else {
      WindowedSnoc(piece, s + size, stop, hi, size);
      var first := piece(Span(s, Min(s + size, hi)));
      assert first + (Windowed(piece, s + size, stop, hi, size) + last)
          == (first + Windowed(piece, s + size, stop, hi, size)) + last;
    }
  }

  /** One turn of the inner loop: the chunks so far, then the next window's piece. */
  lemma WindowedStep(piece: Span -> seq<string>, start: nat, end: nat, size: nat, i: nat, chunks: seq<string>, next: seq<string>)
    requires size > 0 && Aligned(start, start + i, size)
    requires chunks == Windowed(piece, start, start + i, end, size)
    requires next == chunks + piece(Span(start + i, Min(start + i + size, end)))
    ensures next == Windowed(piece, start, start + (i + size), end, size)
  {
    WindowedSnoc(piece, start, start + i, end, size);
  }

  /** Once the last window start passes `hi`, the windows are all those of `[s, hi)`. */
  lemma {:induction false} WindowedStops(piece: Span -> seq<string>, s: nat, stop: nat, hi: nat, size: nat)
    requires size > 0 && Aligned(s, stop, size) && hi <= stop < hi + size
    ensures Windowed(piece, s, stop, hi, size) == Windowed(piece, s, hi, hi, size)
    decreases stop - s
  {
    if s != stop {
      WindowedStops(piece, s + size, stop, hi, size);
    }
  }

  /** The piece of each window of `lines`, as a function of the window. */
  function PieceAt(lines: seq<string>): Span -> seq<string> {
    w => PieceList(lines, w)
  }

  /** The windows of a section, walked one at a time, give the pieces of all of them. */
  lemma {:induction false} WindowedPieces(lines: seq<string>, lo: nat, hi: nat, size: nat)
    requires size > 0
    ensures Windowed(PieceAt(lines), lo, hi, hi, size) == Pieces(lines, Windows(lo, hi, size))
    decreases hi - lo
  {
    if lo < hi {
      WindowedPieces(lines, lo + size, hi, size);
      WindowedPiecesStep(lines, lo, hi, size);
    }
  }

  /** If the walk from the second window gives its pieces, so does the walk from the first. */
  lemma WindowedPiecesStep(lines: seq<string>, lo: nat, hi: nat, size: nat)
    requires size > 0 && lo < hi
    requires Windowed(PieceAt(lines), lo + size, hi, hi, size) == Pieces(lines, Windows(lo + size, hi, size))
    ensures Windowed(PieceAt(lines), lo, hi, hi, size) == Pieces(lines, Windows(lo, hi, size))
  {
    PiecesOfWindows(lines, lo, hi, size);
    WindowedHead(lines, lo, hi, size);
  }

  /** The walk over a section starts with its first window's piece. */
  lemma WindowedHead(lines: seq<string>, lo: nat, hi: nat, size: nat)
    requires size > 0 && lo < hi
    ensures Windowed(PieceAt(lines), lo, hi, hi, size)
         == PieceList(lines, Span(lo, Min(lo + size, hi))) + Windowed(PieceAt(lines), lo + size, hi, hi, size)
  {
    assert PieceAt(lines)(Span(lo, Min(lo + size, hi))) == PieceList(lines, Span(lo, Min(lo + size, hi)));
  }

  /** The inner loop, over `range(0, len(func_lines), size)`: the non-blank windows of `lines[start:end]`. */
  method SectionChunks(lines: seq<string>, start: nat, end: nat, size: nat) returns (chunks: seq<string>)
    requires size > 0 && start <= end <= |lines|
    ensures chunks == Pieces(lines, Windows(start, end, size))
  {
    chunks := [];
    var i: nat := 0;
    while i < end - start
      invariant i < end - start + size
      invariant Aligned(start, start + i, size)
      invariant chunks == Windowed(PieceAt(lines), start, start + i, end, size)
      decreases end - start - i
    {
      ghost var stop := start + i;
      AlignedStep(start, stop, size);
      chunks := TakeWindow(lines, start, end, i, size, chunks);
      i := i + size;
      assert start + i == stop + size;
    }
    WindowsDone(lines, start, start + i, end, size);
  }

  /** Once the walk has passed the end of the section, it has every piece of it. */
  lemma WindowsDone(lines: seq<string>, start: nat, stop: nat, end: nat, size: nat)
    requires size > 0 && Aligned(start, stop, size) && end <= stop < end + size
    ensures Windowed(PieceAt(lines), start, stop, end, size) == Pieces(lines, Windows(start, end, size))
  {
    WindowedStops(PieceAt(lines), start, stop, end, size);
    WindowedPieces(lines, start, end, size);
  }

  /** The outer loop, over `range(len(func_start_idxs) - 1)`. */
  method CollectSectionChunks(lines: seq<string>, starts: seq<nat>, size: nat) returns (chunks: seq<string>)
    requires size > 0 && |starts| >= 1 && Increasing(starts) && starts[|starts| - 1] <= |lines|
    ensures chunks == Pieces(lines, SectionSpans(starts, size))
  {
    chunks := [];
    var idx := 0;
    while idx < |starts| - 1
      invariant idx <= |starts| - 1
      invariant chunks == Pieces(lines, SectionSpans(starts[..idx + 1], size))
    {
      var start := starts[idx];
      var end := starts[idx + 1];
      ghost var prev := SectionSpans(starts[..idx + 1], size);
      assert end <= |lines| by {
        if idx + 1 < |starts| - 1 {
          assert starts[idx + 1] < starts[|starts| - 1];
        }
      }
      var sectionChunks := SectionChunks(lines, start, end, size);
      chunks := chunks + sectionChunks;
      assert starts[..idx + 2][..idx + 1] == starts[..idx + 1];
      assert SectionSpans(starts[..idx + 2], size) == prev + Windows(start, end, size);
      PiecesAppend(lines, prev, Windows(start, end, size));
      idx := idx + 1;
    }
    assert starts[..idx + 1] == starts;
  }

  /** `split_code_into_function_chunks`. */
  method SplitCodeIntoFunctionChunks(code: string, size: nat) returns (chunks: seq<string>)
    requires size > 0
    ensures chunks == FunctionChunks(SplitLines(code), size)
  {
    var lines := SplitLines(code);
    var starts := FindSectionStarts(lines);
    chunks := CollectSectionChunks(lines, starts, size);

    if starts[0] > 0 {
      var headerLines := lines[..starts[0]];
      var headerChunk := Strip(Join("\n", headerLines));
      if headerChunk != [] {
        chunks := [headerChunk] + chunks;
      }
    }

    if |starts| <= 1 {
      var fullCode := Strip(Join("\n", lines));
      if fullCode != [] {
        chunks := [fullCode];
      }
    }
  }

  // ---------------------------------------------------------------------------
  // Locating a chunk

  /** Every line of `part` equals the line of `whole` at the same offset from `p`. */
  predicate MatchesAt<T(==)>(whole: seq<T>, part: seq<T>, p: nat) {
    p + |part| <= |whole| && forall j :: 0 <= j < |part| ==> whole[p + j] == part[j]
  }

  /** The first position at or after `from` where `part` matches. */
  function FirstMatch<T(==)>(whole: seq<T>, part: seq<T>, from: nat): (r: Option<nat>)
    ensures r.Some? ==> from <= r.value < |whole| && MatchesAt(whole, part, r.value)
    ensures r.Some? ==> forall q :: from <= q < r.value ==> !MatchesAt(whole, part, q)
    ensures r.None? ==> forall q :: from <= q < |whole| ==> !MatchesAt(whole, part, q)
    decreases |whole| - from
  {
    if from >= |whole| then None
    else if MatchesAt(whole, part, from) then Some(from)
    else FirstMatch(whole, part, from + 1)
  }

  /** At a match, the lines before it, the chunk's lines and the lines after it make up the whole. */
  lemma MatchSplits<T>(whole: seq<T>, part: seq<T>, p: nat)
    requires MatchesAt(whole, part, p)
    ensures whole[..p] + part + whole[p + |part|..] == whole
  {
    assert whole[p..p + |part|] == part;
    assert whole == whole[..p] + whole[p..p + |part|] + whole[p + |part|..];
  }

  /** The `while search_start < len(full_code_lines)` scan. */
  method Locate<T(==)>(whole: seq<T>, part: seq<T>, from: nat) returns (r: Option<nat>)
    ensures r == FirstMatch(whole, part, from)
  {
    var searchStart := from;
    while searchStart < |whole|
      invariant from <= searchStart
      invariant FirstMatch(whole, part, from) == FirstMatch(whole, part, searchStart)
      decreases |whole| - searchStart
    {
      var matched := true;
      var j := 0;
      while j < |part|
        invariant j <= |part|
        invariant searchStart + j <= |whole|
        invariant forall k :: 0 <= k < j ==> whole[searchStart + k] == part[k]
      {
        if searchStart + j >= |whole| || whole[searchStart + j] != part[j] {
          matched := false;
          break;
        }
        j := j + 1;
      }
      if matched {
        return Some(searchStart);
      }
      searchStart := searchStart + 1;
    }
    return None;
  }

  // ---------------------------------------------------------------------------
  // Samples of one record

  /** One chunk: where the scan goes on from, and the sample it yields, if any. */
  function ChunkStep(full: seq<string>, chunk: string, minLines: int, current: nat): (nat, Option<Sample>) {
    var part := SplitLines(chunk);
    var found := FirstMatch(full, part, current);
    if found.None? then (current, None)
    else (found.value, SampleAround(full, |part|, chunk, minLines, found.value))
  }

  /** The sample for a chunk of `n` lines found at line `p`, unless either side has fewer than `minLines` lines. */
  function SampleAround(full: seq<string>, n: nat, chunk: string, minLines: int, p: nat): Option<Sample>
    requires p + n <= |full|
  {
    var prefixLines := full[..p];
    var suffixLines := full[p + n..];
    if |prefixLines| < minLines || |suffixLines| < minLines then None
    else Some(Sample(Strip(Join("\n", prefixLines)), Strip(chunk), Strip(Join("\n", suffixLines))))
  }

  /**
   * A chunk yields a sample exactly when it is found at or after the last match
   * with at least `minLines` lines on each side; the sample's prefix and suffix
   * are the lines around the match, which together with the chunk's lines make
   * up the whole code. A chunk that is not found leaves the scan where it was.
   */
  lemma ChunkStepMeaning(full: seq<string>, chunk: string, minLines: int, current: nat)
    ensures var part := SplitLines(chunk);
      var r := ChunkStep(full, chunk, minLines, current);
      && (FirstMatch(full, part, current).None? ==> r == (current, None))
      && (FirstMatch(full, part, current).Some? ==> r.0 == FirstMatch(full, part, current).value)
      && (r.1.Some? <==> (FirstMatch(full, part, current).Some? &&
                          r.0 >= minLines && |full| - r.0 - |part| >= minLines))
      && (r.1.Some? ==>
            full[..r.0] + part + full[r.0 + |part|..] == full &&
            r.1.value == Sample(Strip(Join("\n", full[..r.0])), Strip(chunk), Strip(Join("\n", full[r.0 + |part|..]))))
  {
    var part := SplitLines(chunk);
    if FirstMatch(full, part, current).Some? {
      MatchSplits(full, part, FirstMatch(full, part, current).value);
    }
  }

  /**
   * The `for chunk in chunks` loop of one record: where the scan has got to and
   * the samples so far, after the given chunks.
   */
  function Scan(full: seq<string>, chunks: seq<string>, minLines: int): (r: (nat, seq<Sample>))
    ensures |r.1| <= |chunks|
    decreases |chunks|
  {
    if chunks == [] then (0, [])
    else
      var (current, out) := Scan(full, chunks[..|chunks| - 1], minLines);
      var (next, s) := ChunkStep(full, chunks[|chunks| - 1], minLines, current);
      (next, out + (if s.Some? then [s.value] else []))
  }

  lemma ScanStep(full: seq<string>, chunks: seq<string>, minLines: int, k: nat)
    requires k < |chunks|
    ensures var (current, out) := Scan(full, chunks[..k], minLines);
      var (next, s) := ChunkStep(full, chunks[k], minLines, current);
      Scan(full, chunks[..k + 1], minLines) == (next, out + (if s.Some? then [s.value] else []))
  {
    assert chunks[..k + 1][..k] == chunks[..k];
  }

  /** The samples of a record's chunks. */
  function Emitted(full: seq<string>, chunks: seq<string>, minLines: int): seq<Sample> {
    Scan(full, chunks, minLines).1
  }

  /** The body of the `for chunk in chunks` loop. */
  method ChunkSample(full: seq<string>, chunk: string, minLines: int, current: nat)
    returns (next: nat, s: Option<Sample>)
    ensures (next, s) == ChunkStep(full, chunk, minLines, current)
  {
    var chunkLines := SplitLines(chunk);
    var at := Locate(full, chunkLines, current);
    if at.None? {
      return current, None;
    }
    next := at.value;
    s := SampleAround(full, |chunkLines|, chunk, minLines, next);
  }

  /** The `for chunk in chunks` loop of one record. */
  method EmitSamples(full: seq<string>, chunks: seq<string>, minLines: int) returns (out: seq<Sample>)
    ensures out == Emitted(full, chunks, minLines)
  {
    out := [];
    var current: nat := 0;
    var k := 0;
    while k < |chunks|
      invariant k <= |chunks|
      invariant (current, out) == Scan(full, chunks[..k], minLines)
    {
      var next, s := ChunkSample(full, chunks[k], minLines, current);
      ScanStep(full, chunks, minLines, k);
      current := next;
      if s.Some? {
        out := out + [s.value];
      } else {
        assert out + [] == out;
      }
      k := k + 1;
    }
    assert chunks[..k] == chunks;
  }

  // ---------------------------------------------------------------------------
  // Records and files

  /**
   * The samples one input line yields. `pick` stands for `random.sample(chunks, maxChunks)`;
   * a line that does not parse, is not an object, or has a non-string or blank
   * `content` yields nothing.
   */
  function LineSamples(line: Option<Json>, maxChunks: nat, size: nat, minLines: int,
                       pick: seq<string> -> seq<string>): seq<Sample>
    requires size > 0
  {
    match line
    case Some(JObj(fields)) =>
      (match GetOr(fields, "content", JStr(""))
       case JStr(text) =>
         if IsBlank(text) then []
         else
           var content := ReplaceAll(text, "\\/", "/");
           var chunks := FunctionChunks(SplitLines(content), size);
           var chosen := if |chunks| > maxChunks then pick(chunks) else chunks;
           Emitted(SplitLines(content), chosen, minLines)
       case _ => [])
    case _ => []
  }

  /** The samples of all lines, in order. */
  function FileSamples(lines: seq<Option<Json>>, maxChunks: nat, size: nat, minLines: int,
                       pick: seq<string> -> seq<string>): seq<Sample>
    requires size > 0
  {
    if lines == [] then []
    else
      var n := |lines| - 1;
      FileSamples(lines[..n], maxChunks, size, minLines, pick) + LineSamples(lines[n], maxChunks, size, minLines, pick)
  }

  /**
   * What `random.sample(chunks, maxChunks)` promises when there are more
   * chunks than that: exactly `maxChunks` of them, none drawn twice.
   */
  ghost predicate Sampler(pick: seq<string> -> seq<string>, maxChunks: nat) {
    forall chunks: seq<string> :: |chunks| > maxChunks ==>
      |pick(chunks)| == maxChunks && multiset(pick(chunks)) <= multiset(chunks)
  }

  /** A line yields at most `max_chunks_per_file` samples. */
  lemma LineSamplesBound(line: Option<Json>, maxChunks: nat, size: nat, minLines: int,
                         pick: seq<string> -> seq<string>)
    requires size > 0 && Sampler(pick, maxChunks)
    ensures |LineSamples(line, maxChunks, size, minLines, pick)| <= maxChunks
  {
  }

  /** A file yields at most `max_chunks_per_file` samples per line. */
  lemma {:induction false} FileSamplesBound(lines: seq<Option<Json>>, maxChunks: nat, size: nat, minLines: int,
                                            pick: seq<string> -> seq<string>)
    requires size > 0 && Sampler(pick, maxChunks)
    ensures |FileSamples(lines, maxChunks, size, minLines, pick)| <= |lines| * maxChunks
  {
    if lines != [] {
      var n := |lines| - 1;
      var prev := FileSamples(lines[..n], maxChunks, size, minLines, pick);
      var last := LineSamples(lines[n], maxChunks, size, minLines, pick);
      assert FileSamples(lines, maxChunks, size, minLines, pick) == prev + last;
      FileSamplesBound(lines[..n], maxChunks, size, minLines, pick);
      LineSamplesBound(lines[n], maxChunks, size, minLines, pick);
      MulSucc(n, maxChunks);
    }
  }

  lemma MulSucc(n: nat, m: nat)
    ensures (n + 1) * m == n * m + m
  {
  }

  /** The body of the line loop of `convert_jsonl_to_fim_format_with_limit`. */
  method ConvertLine(line: Option<Json>, maxChunks: nat, size: nat, minLines: int,
                     pick: seq<string> -> seq<string>) returns (out: seq<Sample>)
    requires size > 0
    ensures out == LineSamples(line, maxChunks, size, minLines, pick)
  {
    out := [];
    if line.Some? && line.value.JObj? {
      var content := GetOr(line.value.fields, "content", JStr(""));
      if content.JStr? && !IsBlank(content.s) {
        var text := ReplaceAll(content.s, "\\/", "/");
        var lines := SplitLines(text);
        var chunks := SplitCodeIntoFunctionChunks(text, size);
        if |chunks| > maxChunks {
          chunks := pick(chunks);
        }
        out := EmitSamples(lines, chunks, minLines);
      }
    }
  }

  /** `convert_jsonl_to_fim_format_with_limit`: the samples written, in order. */
  method ConvertJsonlToFim(lines: seq<Option<Json>>, maxChunks: nat, size: nat, minLines: int,
                           pick: seq<string> -> seq<string>) returns (out: seq<Sample>)
    requires size > 0
    ensures out == FileSamples(lines, maxChunks, size, minLines, pick)
  {
    out := [];
    var i := 0;
    while i < |lines|
      invariant i <= |lines|
      invariant out == FileSamples(lines[..i], maxChunks, size, minLines, pick)
    {
      assert lines[..i + 1][..i] == lines[..i];
      var samples := ConvertLine(lines[i], maxChunks, size, minLines, pick);
      out := out + samples;
      i := i + 1;
    }
    assert lines[..i] == lines;
  }
}
