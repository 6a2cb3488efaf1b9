/** Separator-delimited text: `strings.Split` and `strings.Join` with a one-element separator.
    The diff engine uses it with characters, the message plane with bytes. */
module Lines {

  /** The index of the first `sep` in `s`, or `|s|`. */
  function IndexOf<T(==)>(s: seq<T>, sep: T): (i: nat)
    ensures i <= |s|
    ensures sep !in s[..i]
    ensures i < |s| ==> s[i] == sep
  {
    if s == [] || s[0] == sep then 0 else 1 + IndexOf(s[1..], sep)
  }

  /** All pieces between separators; one more piece than there are separators. */
  function Split<T(==)>(s: seq<T>, sep: T): (pieces: seq<seq<T>>)
    ensures |pieces| >= 1
  {
    var i := IndexOf(s, sep);
    if i == |s| then [s] else [s[..i]] + Split(s[i + 1..], sep)
  }

  function Join<T>(pieces: seq<seq<T>>, sep: T): seq<T> {
    if |pieces| == 0 then []
    else if |pieces| == 1 then pieces[0]
    else pieces[0] + [sep] + Join(pieces[1..], sep)
  }

  ghost predicate Free<T>(pieces: seq<seq<T>>, sep: T) {
    forall k :: 0 <= k < |pieces| ==> sep !in pieces[k]
  }

  lemma {:induction false} SplitIsFree<T>(s: seq<T>, sep: T)
    ensures Free(Split(s, sep), sep)
  {
    var i := IndexOf(s, sep);
    if i < |s| {
      SplitIsFree(s[i + 1..], sep);
    }
  }

  lemma {:induction false} JoinSplit<T>(s: seq<T>, sep: T)
    ensures Join(Split(s, sep), sep) == s
  {
    var i := IndexOf(s, sep);
    if i < |s| {
      var rest := Split(s[i + 1..], sep);
      JoinSplit(s[i + 1..], sep);
      CutAt([], s, i);
      assert ([s[..i]] + rest)[1..] == rest;
    } else {
      assert s[..i] == s;
    }
  }

  lemma {:induction false} IndexOfFirst<T>(a: seq<T>, sep: T, b: seq<T>)
    requires sep !in a
    ensures IndexOf(a + [sep] + b, sep) == |a|
  {
    var s := a + [sep] + b;
    if a != [] {
      assert s[0] == a[0] && a[0] in a;
      assert s[1..] == a[1..] + [sep] + b;
      IndexOfFirst(a[1..], sep, b);
    }
  }

  lemma CutAt<T>(a: seq<T>, b: seq<T>, k: nat)
    requires k < |b|
    ensures b == b[..k] + [b[k]] + b[k + 1..]
    ensures a + b == (a + b[..k]) + [b[k]] + b[k + 1..]
  {
  }

  /** Reading off one separated piece. */
  lemma SplitCons<T>(a: seq<T>, sep: T, b: seq<T>)
    requires sep !in a
    ensures Split(a + [sep] + b, sep) == [a] + Split(b, sep)
  {
    var s := a + [sep] + b;
    IndexOfFirst(a, sep, b);
    assert s[..|a|] == a && s[|a| + 1..] == b;
  }

  lemma SplitWhole<T>(a: seq<T>, sep: T)
    requires sep !in a
    ensures Split(a, sep) == [a]
  {
    assert forall k :: 0 <= k < |a| ==> a[k] in a;
  }

  lemma {:induction false} SplitJoin<T>(pieces: seq<seq<T>>, sep: T)
    requires pieces != []
    requires Free(pieces, sep)
    ensures Split(Join(pieces, sep), sep) == pieces
  {
    if |pieces| == 1 {
      SplitWhole(pieces[0], sep);
    } else {
      SplitJoin(pieces[1..], sep);
      SplitCons(pieces[0], sep, Join(pieces[1..], sep));
    }
  }

  /** Pieces of a concatenation: the last piece of `x` and the first of `y` become one. */
  function Merge<T>(x: seq<seq<T>>, y: seq<seq<T>>): seq<seq<T>>
    requires x != [] && y != []
  {
    x[..|x| - 1] + [x[|x| - 1] + y[0]] + y[1..]
  }

  lemma MergeCons<T>(p: seq<T>, x: seq<seq<T>>, y: seq<seq<T>>)
    requires x != [] && y != []
    ensures Merge([p] + x, y) == [p] + Merge(x, y)
  {
    assert ([p] + x)[..|x|] == [p] + x[..|x| - 1];
  }

  lemma SplitGrowFirst<T>(a: seq<T>, b: seq<T>, sep: T)
    requires sep !in a
    ensures Split(a + b, sep) == Merge([a], Split(b, sep))
  {
    var k := IndexOf(b, sep);
    MergeFirst(a, Split(b, sep));
    if k == |b| {
      SplitWhole(a + b, sep);
    } else {
      var c, d := b[..k], b[k + 1..];
      CutAt(a, b, k);
      SplitCons(a + c, sep, d);
      assert Split(b, sep)[0] == c && Split(b, sep)[1..] == Split(d, sep);
    }
  }

  lemma MergeFirst<T>(a: seq<T>, y: seq<seq<T>>)
    requires y != []
    ensures Merge([a], y) == [a + y[0]] + y[1..]
  {
    assert [a][..0] == [];
  }

  lemma MergeLast<T>(x: seq<seq<T>>, y: seq<seq<T>>)
    requires x != [] && y != []
    ensures Merge(x, y) == x[..|x| - 1] + Merge([x[|x| - 1]], y)
  {
    MergeFirst(x[|x| - 1], y);
  }

  lemma {:induction false} SplitConcat<T>(a: seq<T>, b: seq<T>, sep: T)
    ensures Split(a + b, sep) == Merge(Split(a, sep), Split(b, sep))
    decreases |a|
  {
    var i := IndexOf(a, sep);
    if i == |a| {
      assert a[..i] == a;
      SplitGrowFirst(a, b, sep);
    } else {
      var a' := a[i + 1..];
      SplitConcat(a', b, sep);
      CutAt([], a, i);
      assert a[..i] + [sep] + a' + b == a[..i] + [sep] + (a' + b);
      SplitCons(a[..i], sep, a' + b);
      MergeCons(a[..i], Split(a', sep), Split(b, sep));
    }
  }
}
