/**
 * The line loops of the scripts: each input line yields at most one output
 * record, and a line whose processing raises is skipped.
 */
module Streams {
  import opened Wrappers

  /** The outputs of `f` over `xs`, in order, with the failures left out. */
  function Collected<A, B>(xs: seq<A>, f: A -> Option<B>): (r: seq<B>)
    ensures |r| <= |xs|
  {
    if xs == [] then []
    else
      var prev := Collected(xs[..|xs| - 1], f);
      match f(xs[|xs| - 1])
      case Some(y) => prev + [y]
      case None => prev
  }

  /** Collecting over two parts collects over each in turn. */
  lemma {:induction false} CollectedAppend<A, B>(xs: seq<A>, ys: seq<A>, f: A -> Option<B>)
    ensures Collected(xs + ys, f) == Collected(xs, f) + Collected(ys, f)
    decreases |ys|
  {
    if ys == [] {
      assert xs + ys == xs;
    } else {
      assert (xs + ys)[..|xs + ys| - 1] == xs + ys[..|ys| - 1];
      CollectedAppend(xs, ys[..|ys| - 1], f);
    }
  }

  /** One line yields its output, or nothing when it fails. */
  lemma CollectedOne<A, B>(x: A, f: A -> Option<B>)
    ensures Collected([x], f) == if f(x).Some? then [f(x).value] else []
  {
    assert [x][..0] == [];
  }

  /** Every element of the output is the output of some input, and every success is kept. */
  lemma {:induction false} CollectedMembers<A, B>(xs: seq<A>, f: A -> Option<B>)
    ensures forall y :: y in Collected(xs, f) ==> exists i :: 0 <= i < |xs| && f(xs[i]) == Some(y)
    ensures forall i :: 0 <= i < |xs| && f(xs[i]).Some? ==> f(xs[i]).value in Collected(xs, f)
  {
    if xs != [] {
      var n := |xs| - 1;
      CollectedMembers(xs[..n], f);
      assert forall i :: 0 <= i < n ==> xs[..n][i] == xs[i];
    }
  }

  /** The concatenation of the parts, in order. */
  function Flatten<T>(css: seq<seq<T>>): seq<T> {
    if css == [] then [] else Flatten(css[..|css| - 1]) + css[|css| - 1]
  }

  lemma FlattenAppend<T>(a: seq<seq<T>>, b: seq<seq<T>>)
    ensures Flatten(a + b) == Flatten(a) + Flatten(b)
    decreases |b|
  {
    if b != [] {
      assert (a + b)[..|a + b| - 1] == a + b[..|b| - 1];
      FlattenAppend(a, b[..|b| - 1]);
    } else {
      assert a + b == a;
    }
  }

  predicate Increasing(xs: seq<nat>) {
    forall j, k :: 0 <= j < k < |xs| ==> xs[j] < xs[k]
  }

  /** The positions holding `true`, in increasing order. */
  function Positions(flags: seq<bool>): (idx: seq<nat>)
    ensures forall j :: 0 <= j < |idx| ==> idx[j] < |flags| && flags[idx[j]]
    ensures Increasing(idx)
    ensures forall i :: 0 <= i < |flags| && flags[i] ==> i in idx
    ensures |idx| <= |flags|
  {
    if flags == [] then []
    else
      var n := |flags| - 1;
      var prev := Positions(flags[..n]);
      assert forall i :: 0 <= i < n ==> flags[..n][i] == flags[i];
      if flags[n] then prev + [n] else prev
  }

  /** Looking at one more flag adds its position exactly when it holds `true`. */
  lemma PositionsStep(flags: seq<bool>, i: nat)
    requires i < |flags|
    ensures Positions(flags[..i + 1]) == Positions(flags[..i]) + (if flags[i] then [i] else [])
  {
    assert flags[..i + 1][..i] == flags[..i];
  }

  /** With no `true` flag there are no positions. */
  lemma {:induction false} PositionsNone(flags: seq<bool>)
    requires forall i :: 0 <= i < |flags| ==> !flags[i]
    ensures Positions(flags) == []
  {
    if flags != [] {
      PositionsNone(flags[..|flags| - 1]);
    }
  }

  /** A slice of a slice is a slice of the whole. */
  lemma SliceOfSlice<T>(xs: seq<T>, a: nat, b: nat, i: nat, j: nat)
    requires a <= b <= |xs| && i <= j <= b - a
    ensures xs[a..b][i..j] == xs[a + i..a + j]
  {
    var l := xs[a..b][i..j];
    var r := xs[a + i..a + j];
    assert |l| == |r|;
    forall k | 0 <= k < |l| ensures l[k] == r[k] {
      assert l[k] == xs[a..b][i + k];
      assert xs[a..b][i + k] == xs[a + i + k];
    }
  }

  /** A Python slice bound `i` on a sequence of length `n`: negative counts from the end, then clamped. */
  function PyIndex(i: int, n: nat): (r: nat)
    ensures r <= n
    ensures 0 <= i <= n ==> r == i
  {
    if i < 0 then (if i + n < 0 then 0 else i + n)
    else if i > n then n
    else i
  }

  /** Python's `xs[lo:hi]`. */
  function PySlice<T>(xs: seq<T>, lo: int, hi: int): (r: seq<T>)
    ensures 0 <= lo <= hi <= |xs| ==> r == xs[lo..hi]
    ensures |r| <= |xs|
  {
    var a := PyIndex(lo, |xs|);
    var b := PyIndex(hi, |xs|);
    if a <= b then xs[a..b] else []
  }

  /** A slice starting at a non-negative bound lies inside the slice from 0 with the same end. */
  lemma PySliceWithin<T>(xs: seq<T>, lo: int, hi: int)
    requires lo >= 0
    ensures forall k :: 0 <= k < |PySlice(xs, lo, hi)| ==> PySlice(xs, lo, hi)[k] in PySlice(xs, 0, hi)
  {
    var a := PyIndex(lo, |xs|);
    var b := PyIndex(hi, |xs|);
    forall k | 0 <= k < |PySlice(xs, lo, hi)| ensures PySlice(xs, lo, hi)[k] in PySlice(xs, 0, hi) {
      assert PySlice(xs, lo, hi)[k] == xs[a + k];
      assert PySlice(xs, 0, hi)[a + k] == xs[a + k];
    }
  }

  /** How many elements satisfy `p`. */
  function Count<T>(xs: seq<T>, p: T -> bool): (n: nat)
    ensures n <= |xs|
  {
    if xs == [] then 0 else Count(xs[..|xs| - 1], p) + (if p(xs[|xs| - 1]) then 1 else 0)
  }

  /** Counting over two parts counts over each in turn. */
  lemma {:induction false} CountAppend<T>(xs: seq<T>, ys: seq<T>, p: T -> bool)
    ensures Count(xs + ys, p) == Count(xs, p) + Count(ys, p)
    decreases |ys|
  {
    if ys == [] {
      assert xs + ys == xs;
    } else {
      assert (xs + ys)[..|xs + ys| - 1] == xs + ys[..|ys| - 1];
      CountAppend(xs, ys[..|ys| - 1], p);
    }
  }

  /** The count is 0 exactly when no element satisfies `p`. */
  lemma {:induction false} CountNone<T>(xs: seq<T>, p: T -> bool)
    ensures Count(xs, p) == 0 <==> forall i :: 0 <= i < |xs| ==> !p(xs[i])
  {
    if xs != [] {
      var n := |xs| - 1;
      CountNone(xs[..n], p);
      assert forall i :: 0 <= i < n ==> xs[..n][i] == xs[i];
    }
  }

  /** The count is the length exactly when every element satisfies `p`. */
  lemma {:induction false} CountEvery<T>(xs: seq<T>, p: T -> bool)
    ensures Count(xs, p) == |xs| <==> forall i :: 0 <= i < |xs| ==> p(xs[i])
  {
    if xs != [] {
      var n := |xs| - 1;
      CountEvery(xs[..n], p);
      assert forall i :: 0 <= i < n ==> xs[..n][i] == xs[i];
    }
  }

  /** One more part of a concatenation built from the front. */
  lemma FlattenSnoc<T>(css: seq<seq<T>>, k: nat)
    requires k < |css|
    ensures Flatten(css[..k + 1]) == Flatten(css[..k]) + css[k]
  {
    assert css[..k + 1][..k] == css[..k];
  }

  /** An element of a three-part concatenation comes from one of the parts, at the shifted position. */
  lemma ConcatAt3<T>(a: seq<T>, b: seq<T>, c: seq<T>, j: nat)
    requires j < |a + b + c|
    ensures || (j < |a| && (a + b + c)[j] == a[j])
            || (|a| <= j < |a| + |b| && (a + b + c)[j] == b[j - |a|])
            || (|a| + |b| <= j && (a + b + c)[j] == c[j - |a| - |b|])
  {
  }

  /** The values of the successes, in order. */
  function Somes<T>(os: seq<Option<T>>): (r: seq<T>)
    ensures |r| <= |os|
  {
    if os == [] then []
    else
      var prev := Somes(os[..|os| - 1]);
      if os[|os| - 1].Some? then prev + [os[|os| - 1].value] else prev
  }

  /** One more turn of the collecting loop. */
  lemma SomesSnoc<T>(os: seq<Option<T>>, t: nat)
    requires t < |os|
    ensures Somes(os[..t + 1]) == if os[t].Some? then Somes(os[..t]) + [os[t].value] else Somes(os[..t])
  {
    assert os[..t + 1][..t] == os[..t];
  }

  /** A value is collected exactly when it is the value of some success. */
  lemma {:induction false} SomesMembers<T>(os: seq<Option<T>>)
    ensures forall x :: x in Somes(os) <==> Some(x) in os
  {
    if os != [] {
      var init := os[..|os| - 1];
      SomesMembers(init);
      assert os == init + [os[|os| - 1]];
    }
  }

  /** Without failures there is one value per turn, in order. */
  lemma {:induction false} SomesAll<T>(os: seq<Option<T>>)
    requires forall i :: 0 <= i < |os| ==> os[i].Some?
    ensures |Somes(os)| == |os|
    ensures forall i :: 0 <= i < |os| ==> Somes(os)[i] == os[i].value
  {
    if os != [] {
      var init := os[..|os| - 1];
      SomesAll(init);
    }
  }

  /** The values of the successes, up to the first `target` of them: a loop that stops once it has `target`. */
  function Capped<T>(os: seq<Option<T>>, target: nat): (r: seq<T>)
    ensures |r| <= target
  {
    if os == [] then []
    else
      var prev := Capped(os[..|os| - 1], target);
      if |prev| >= target || os[|os| - 1].None? then prev else prev + [os[|os| - 1].value]
  }

  /** One more turn of the capped loop. */
  lemma CappedSnoc<T>(os: seq<Option<T>>, target: nat, t: nat)
    requires t < |os|
    ensures Capped(os[..t + 1], target)
      == if |Capped(os[..t], target)| >= target || os[t].None? then Capped(os[..t], target)
         else Capped(os[..t], target) + [os[t].value]
  {
    assert os[..t + 1][..t] == os[..t];
  }

  /** The capped loop keeps the first `target` successes, or all of them if there are fewer. */
  lemma {:induction false} CappedIsPrefix<T>(os: seq<Option<T>>, target: nat)
    ensures var all := Somes(os);
      Capped(os, target) == all[..if |all| < target then |all| else target]
  {
    if os != [] {
      var init := os[..|os| - 1];
      CappedIsPrefix(init, target);
      var all := Somes(init);
      if os[|os| - 1].Some? {
        var all' := all + [os[|os| - 1].value];
        if |all| < target {
          assert all'[..|all| + 1] == all';
          assert all'[..|all|] == all;
        } else {
          assert all'[..target] == all[..target];
        }
      }
    }
  }

  /** Once `target` values are kept, later turns add nothing. */
  lemma {:induction false} CappedStays<T>(os: seq<Option<T>>, target: nat, t: nat)
    requires t <= |os|
    requires t < |os| ==> |Capped(os[..t], target)| >= target
    ensures Capped(os, target) == Capped(os[..t], target)
    decreases |os| - t
  {
    if t < |os| {
      assert os[..t + 1][..t] == os[..t];
      CappedStays(os, target, t + 1);
    } else {
      assert os[..t] == os;
    }
  }

  /** Every kept value is the value of some success. */
  lemma {:induction false} CappedMembers<T>(os: seq<Option<T>>, target: nat)
    ensures forall x :: x in Capped(os, target) ==> Some(x) in os
  {
    if os != [] {
      var init := os[..|os| - 1];
      CappedMembers(init, target);
      assert forall o :: o in init ==> o in os;
    }
  }

  /** The parts of all the turns, or `None` from the first turn that fails on. */
  function Gather<T>(os: seq<Option<seq<T>>>): Option<seq<T>> {
    if os == [] then Some([])
    else
      match Gather(os[..|os| - 1])
      case None => None
      case Some(prev) => if os[|os| - 1].None? then None else Some(prev + os[|os| - 1].value)
  }

  /** One more turn of the gathering. */
  lemma GatherSnoc<T>(os: seq<Option<seq<T>>>, t: nat, prev: seq<T>)
    requires t < |os| && Gather(os[..t]) == Some(prev)
    ensures Gather(os[..t + 1]) == if os[t].None? then None else Some(prev + os[t].value)
  {
    assert os[..t + 1][..t] == os[..t];
  }

  /** A failed turn makes the whole gathering fail. */
  lemma {:induction false} GatherFails<T>(os: seq<Option<seq<T>>>, k: nat)
    requires k < |os| && os[k].None?
    ensures Gather(os).None?
    decreases |os|
  {
    if k < |os| - 1 {
      assert os[..|os| - 1][k] == os[k];
      GatherFails(os[..|os| - 1], k);
    }
  }

  /** A property every part has holds of everything gathered. */
  lemma {:induction false} GatherKeeps<T>(os: seq<Option<seq<T>>>, p: T -> bool)
    requires Gather(os).Some?
    requires forall k :: 0 <= k < |os| && os[k].Some? ==> forall x :: x in os[k].value ==> p(x)
    ensures forall x :: x in Gather(os).value ==> p(x)
  {
    if os != [] {
      var init := os[..|os| - 1];
      assert forall k :: 0 <= k < |init| ==> init[k] == os[k];
      GatherKeeps(init, p);
    }
  }

  /** Without a failure, the gathering is the concatenation of the parts. */
  lemma {:induction false} GatherAll<T>(os: seq<Option<seq<T>>>)
    requires forall k :: 0 <= k < |os| ==> os[k].Some?
    ensures Gather(os).Some?
    ensures forall x :: x in Gather(os).value ==> exists k :: 0 <= k < |os| && x in os[k].value
  {
    if os != [] {
      var init := os[..|os| - 1];
      GatherAll(init);
      forall x | x in Gather(os).value ensures exists k :: 0 <= k < |os| && x in os[k].value {
        if x in Gather(init).value {
          var k :| 0 <= k < |init| && x in init[k].value;
          assert os[k] == init[k];
        } else {
          assert x in os[|os| - 1].value;
        }
      }
    }
  }
}
