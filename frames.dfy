/**
 * A pandas DataFrame as a sequence of rows, each carrying its index label
 * explicitly, so that `reset_index(drop=True)`, boolean-mask selection (which
 * keeps labels) and `index.isin` can be told apart.
 */
module Frames {
  import opened Streams

  /** A cell of a column whose values may be strings, missing (NaN/None) or other scalars. */
  datatype Cell = Str(s: string) | Null | NonStr(n: int)

  datatype Row<T> = Row(index: int, rec: T)

  function Records<T>(rows: seq<Row<T>>): (r: seq<T>)
    ensures |r| == |rows|
    ensures forall i :: 0 <= i < |rows| ==> r[i] == rows[i].rec
  {
    seq(|rows|, i requires 0 <= i < |rows| => rows[i].rec)
  }

  function Labels<T>(rows: seq<Row<T>>): (r: seq<int>)
    ensures |r| == |rows|
    ensures forall i :: 0 <= i < |rows| ==> r[i] == rows[i].index
  {
    seq(|rows|, i requires 0 <= i < |rows| => rows[i].index)
  }

  /** The labels are 0, 1, ..., n-1, as after `reset_index(drop=True)`. */
  predicate IndexedFromZero<T>(rows: seq<Row<T>>) {
    forall i :: 0 <= i < |rows| ==> rows[i].index == i
  }

  /** `reset_index(drop=True)` */
  function Reindexed<T>(rows: seq<Row<T>>): (r: seq<Row<T>>)
    ensures |r| == |rows| && IndexedFromZero(r)
    ensures Records(r) == Records(rows)
  {
    seq(|rows|, i requires 0 <= i < |rows| => Row(i, rows[i].rec))
  }

  /** `a` is `b` with some elements left out, order kept. */
  predicate IsSubseq<T(==)>(a: seq<T>, b: seq<T>)
    decreases |b|
  {
    if a == [] then true
    else if b == [] then false
    else if a[0] == b[0] then IsSubseq(a[1..], b[1..])
    else IsSubseq(a, b[1..])
  }

  lemma SubseqRefl<T>(a: seq<T>)
    ensures IsSubseq(a, a)
  {
  }

  lemma SubseqMembers<T>(a: seq<T>, b: seq<T>)
    requires IsSubseq(a, b)
    ensures |a| <= |b|
    ensures forall x :: x in a ==> x in b
    decreases |b|
  {
    if a != [] && b != [] {
      assert a == [a[0]] + a[1..] && b == [b[0]] + b[1..];
      if a[0] == b[0] { SubseqMembers(a[1..], b[1..]); } else { SubseqMembers(a, b[1..]); }
    }
  }

  lemma {:induction false} SubseqTrans<T>(a: seq<T>, b: seq<T>, c: seq<T>)
    requires IsSubseq(a, b) && IsSubseq(b, c)
    ensures IsSubseq(a, c)
    decreases |c|
  {
    if a != [] && b != [] && c != [] {
      if b[0] == c[0] {
        if a[0] == b[0] { SubseqTrans(a[1..], b[1..], c[1..]); }
        else { SubseqTrans(a, b[1..], c[1..]); }
      } else {
        SubseqTrans(a, b, c[1..]);
        if a[0] == c[0] { SubseqDropHead(a, c[1..]); }
      }
    }
  }

  lemma {:induction false} SubseqDropHead<T>(a: seq<T>, b: seq<T>)
    requires a != [] && IsSubseq(a, b)
    ensures IsSubseq(a[1..], b)
    decreases |b|, 1
  {
    if a[0] != b[0] {
      SubseqDropHead(a, b[1..]);
    }
    SubseqWeaken(a[1..], b[1..], b[0]);
    assert b == [b[0]] + b[1..];
  }

  lemma {:induction false} SubseqWeaken<T>(a: seq<T>, b: seq<T>, x: T)
    requires IsSubseq(a, b)
    ensures IsSubseq(a, [x] + b)
    decreases |b| + 1, 0
  {
    assert ([x] + b)[1..] == b;
    if a != [] && a[0] == x {
      SubseqDropHead(a, b);
    }
  }

  lemma {:induction false} SubseqRecords<T>(a: seq<Row<T>>, b: seq<Row<T>>)
    requires IsSubseq(a, b)
    ensures IsSubseq(Records(a), Records(b))
    decreases |b|
  {
    if a != [] && b != [] {
      assert Records(a)[1..] == Records(a[1..]);
      assert Records(b)[1..] == Records(b[1..]);
      if a[0] == b[0] {
        SubseqRecords(a[1..], b[1..]);
      } else {
        SubseqRecords(a, b[1..]);
        if Records(a)[0] == Records(b)[0] {
          SubseqDropHead(Records(a), Records(b[1..]));
        }
      }
    }
  }

  lemma {:induction false} WhereAllKept<T>(rows: seq<Row<T>>, keep: T -> bool)
    requires forall x :: x in rows ==> keep(x.rec)
    ensures Where(rows, keep) == rows
  {
    if rows != [] {
      assert forall x :: x in rows[1..] ==> x in rows;
      WhereAllKept(rows[1..], keep);
    }
  }

  /** `df[mask]` where the mask is a predicate of the row's values: labels are kept. */
  function Where<T(==)>(rows: seq<Row<T>>, keep: T -> bool): (r: seq<Row<T>>)
    ensures IsSubseq(r, rows)
    ensures forall x :: x in r ==> x in rows && keep(x.rec)
    ensures forall x :: x in rows && keep(x.rec) ==> x in r
  {
    if rows == [] then []
    else
      var tail := Where(rows[1..], keep);
      assert rows == [rows[0]] + rows[1..];
      assert forall x :: x in rows ==> x == rows[0] || x in rows[1..];
      if keep(rows[0].rec) then
        assert ([rows[0]] + tail)[1..] == tail;
        [rows[0]] + tail
      else
        assert IsSubseq(tail, rows) by { if tail != [] && tail[0] == rows[0] { assert false; } }
        tail
  }

  /** The mask `keep` gives the rows, position by position. */
  function MaskOf<T>(rows: seq<Row<T>>, keep: T -> bool): (flags: seq<bool>)
    ensures |flags| == |rows|
    ensures forall i :: 0 <= i < |rows| ==> flags[i] == keep(rows[i].rec)
  {
    seq(|rows|, i requires 0 <= i < |rows| => keep(rows[i].rec))
  }

  /**
   * A mask by value is the positional mask of its verdicts, so it keeps every
   * satisfying row, a repeated one as often as it occurs.
   */
  lemma {:induction false} WhereIsSelect<T>(rows: seq<Row<T>>, keep: T -> bool)
    ensures Where(rows, keep) == Select(rows, MaskOf(rows, keep))
    decreases |rows|
  {
    if rows != [] {
      WhereIsSelect(rows[1..], keep);
      assert MaskOf(rows, keep)[1..] == MaskOf(rows[1..], keep);
    }
  }

  /** A mask and its negation split the rows without losing or repeating any. */
  lemma {:induction false} WherePartition<T>(rows: seq<Row<T>>, keep: T -> bool, drop: T -> bool)
    requires forall x :: drop(x) == !keep(x)
    ensures multiset(Where(rows, keep)) + multiset(Where(rows, drop)) == multiset(rows)
  {
    if rows != [] {
      WherePartition(rows[1..], keep, drop);
      assert rows == [rows[0]] + rows[1..];
    }
  }

  /** `rows[~rows.index.isin(labels)]`: the rows whose label is not among `labels`, in order. */
  function NotLabelled<T(==)>(rows: seq<Row<T>>, labels: seq<int>): (r: seq<Row<T>>)
    ensures IsSubseq(r, rows)
    ensures forall x :: x in r ==> x in rows && x.index !in labels
    ensures forall x :: x in rows && x.index !in labels ==> x in r
  {
    if rows == [] then []
    else
      var rest := NotLabelled(rows[1..], labels);
      assert rows == [rows[0]] + rows[1..];
      assert forall x :: x in rows ==> x == rows[0] || x in rows[1..];
      if rows[0].index in labels then
        assert IsSubseq(rest, rows) by { if rest != [] && rest[0] == rows[0] { assert false; } }
        rest
      else
        assert ([rows[0]] + rest)[1..] == rest;
        [rows[0]] + rest
  }

  /**
   * On rows labelled `b`, `b+1`, ..., removing the labels `0..k-1` removes a
   * prefix by position.
   */
  lemma {:induction false} NotLabelledConsecutive<T>(rows: seq<Row<T>>, labels: seq<int>, b: nat, k: nat)
    requires forall i :: 0 <= i < |rows| ==> rows[i].index == b + i
    requires forall j :: j in labels <==> 0 <= j < k
    ensures NotLabelled(rows, labels) == if b >= k then rows else rows[if k - b < |rows| then k - b else |rows|..]
  {
    if rows != [] {
      NotLabelledConsecutive(rows[1..], labels, b + 1, k);
      if b >= k {
        assert rows[0].index !in labels;
        assert [rows[0]] + rows[1..] == rows;
      } else {
        assert rows[0].index in labels;
      }
    }
  }

  /** `df[flags]` for a mask given position by position: labels are kept. */
  function Select<T>(rows: seq<Row<T>>, flags: seq<bool>): (r: seq<Row<T>>)
    requires |flags| == |rows|
    ensures |r| <= |rows|
    ensures |r| == Count(flags)
    decreases |rows|
  {
    if rows == [] then []
    else (if flags[0] then [rows[0]] else []) + Select(rows[1..], flags[1..])
  }

  function Count(flags: seq<bool>): (n: nat)
    ensures n <= |flags|
  {
    if flags == [] then 0 else (if flags[0] then 1 else 0) + Count(flags[1..])
  }

  function Negate(flags: seq<bool>): (r: seq<bool>)
    ensures |r| == |flags|
    ensures forall i :: 0 <= i < |flags| ==> r[i] == !flags[i]
  {
    seq(|flags|, i requires 0 <= i < |flags| => !flags[i])
  }

  /** A mask and its negation split the rows without losing or repeating any. */
  lemma {:induction false} SelectPartition<T>(rows: seq<Row<T>>, flags: seq<bool>)
    requires |flags| == |rows|
    ensures multiset(Select(rows, flags)) + multiset(Select(rows, Negate(flags))) == multiset(rows)
    ensures |Select(rows, flags)| + |Select(rows, Negate(flags))| == |rows|
  {
    if rows != [] {
      assert Negate(flags)[1..] == Negate(flags[1..]);
      SelectPartition(rows[1..], flags[1..]);
      assert rows == [rows[0]] + rows[1..];
    }
  }

  lemma {:induction false} SelectSubseq<T>(rows: seq<Row<T>>, flags: seq<bool>)
    requires |flags| == |rows|
    ensures IsSubseq(Select(rows, flags), rows)
    ensures forall x :: x in Select(rows, flags) ==> x in rows
  {
    if rows != [] {
      SelectSubseq(rows[1..], flags[1..]);
      var tail := Select(rows[1..], flags[1..]);
      assert rows == [rows[0]] + rows[1..];
      if flags[0] {
        assert ([rows[0]] + tail)[1..] == tail;
      } else {
        assert Select(rows, flags) == tail;
        SubseqWeaken(tail, rows[1..], rows[0]);
      }
    }
    SubseqMembers(Select(rows, flags), rows);
  }

  /** Appending a row and its flag appends the row exactly when the flag holds. */
  lemma {:induction false} SelectSnoc<T>(rows: seq<Row<T>>, flags: seq<bool>, x: Row<T>, b: bool)
    requires |flags| == |rows|
    ensures Select(rows + [x], flags + [b]) == Select(rows, flags) + (if b then [x] else [])
    decreases |rows|
  {
    var tail := if b then [x] else [];
    if rows == [] {
      assert rows + [x] == [x];
      assert flags + [b] == [b];
      assert Select([x], [b]) == tail + Select([], []);
    } else {
      var rs, fs := rows + [x], flags + [b];
      var head := if flags[0] then [rows[0]] else [];
      assert rs[0] == rows[0] && fs[0] == flags[0];
      assert rs[1..] == rows[1..] + [x];
      assert fs[1..] == flags[1..] + [b];
      assert Select(rs, fs) == head + Select(rows[1..] + [x], flags[1..] + [b]);
      SelectSnoc(rows[1..], flags[1..], x, b);
      assert Select(rows, flags) == head + Select(rows[1..], flags[1..]);
      assert head + (Select(rows[1..], flags[1..]) + tail) == (head + Select(rows[1..], flags[1..])) + tail;
    }
  }

  /**
   * `df[flags]` keeps exactly the rows at the positions where the mask holds,
   * in their original order.
   */
  lemma {:induction false} SelectAtPositions<T>(rows: seq<Row<T>>, flags: seq<bool>)
    requires |flags| == |rows|
    ensures |Select(rows, flags)| == |Positions(flags)|
    ensures forall j :: 0 <= j < |Positions(flags)| ==> Select(rows, flags)[j] == rows[Positions(flags)[j]]
  {
    if rows != [] {
      var n := |rows| - 1;
      SelectAtPositions(rows[..n], flags[..n]);
      assert rows[..n] + [rows[n]] == rows;
      assert flags[..n] + [flags[n]] == flags;
      SelectSnoc(rows[..n], flags[..n], rows[n], flags[n]);
    }
  }

  lemma {:induction false} SelectAllTrue<T>(rows: seq<Row<T>>, flags: seq<bool>)
    requires |flags| == |rows|
    requires forall i :: 0 <= i < |flags| ==> flags[i]
    ensures Select(rows, flags) == rows
  {
    if rows != [] {
      SelectAllTrue(rows[1..], flags[1..]);
    }
  }
}
