/** Line hunks: sidecar/internal/diffreview/hunk.go. `ComputeHunks` groups a minimal edit
    script into hunks, `ApplyHunks` rebuilds a text from the accepted ones. */
module Hunks {
  import opened Lines
  import opened EditScript
  import opened Sequences

  datatype Hunk<T> = Hunk(id: int, oldStart: int, oldLines: seq<T>, newLines: seq<T>) {
    function Size(): nat { |oldLines| + |newLines| }
  }

  type Accepted = map<int, bool>

  /** Go's `accepted[id]`: a missing key reads as false. */
  predicate Chosen(accepted: Accepted, id: int) {
    id in accepted && accepted[id]
  }

  function SplitLines(text: string): (lines: seq<string>) {
    if text == "" then [] else Split(text, '\n')
  }

  function JoinLines(lines: seq<string>): string {
    Join(lines, '\n')
  }

  // ---- Grouping a script into hunks ----

  /** End of the run of deletions and insertions that starts at `i`. */
  function RunEnd<T>(ops: seq<Op<T>>, i: nat): (e: nat)
    requires i <= |ops|
    ensures i <= e <= |ops|
    ensures i < |ops| && !ops[i].Equal? ==> i < e
    ensures e < |ops| ==> ops[e].Equal?
    decreases |ops| - i
  {
    if i < |ops| && !ops[i].Equal? then RunEnd(ops, i + 1) else i
  }

  /** The hunk of the run that starts at `i`, which is old line `at`. */
  function RunHunk<T>(ops: seq<Op<T>>, i: nat, at: nat, id: int): Hunk<T>
    requires i <= |ops|
  {
    var e := RunEnd(ops, i);
    Hunk(id, at, OldOf(ops[i..e]), NewOf(ops[i..e]))
  }

  /** The hunks of `ops` from index `i` on, the first one numbered `id`, when `i` is old line `at`. */
  function Group<T>(ops: seq<Op<T>>, i: nat, at: nat, id: int): seq<Hunk<T>>
    requires i <= |ops|
    decreases |ops| - i
  {
    if i == |ops| then []
    else if ops[i].Equal? then Group(ops, i + 1, at + 1, id)
    else
      var h := RunHunk(ops, i, at, id);
      [h] + Group(ops, RunEnd(ops, i), at + |h.oldLines|, id + 1)
  }

  function HunksOfLines<T(==)>(o: seq<T>, n: seq<T>): seq<Hunk<T>> {
    Group(Script(o, n), 0, 0, 0)
  }

  /** What ComputeHunks returns. */
  function HunksOf(oldText: string, newText: string): seq<Hunk<string>> {
    HunksOfLines(SplitLines(oldText), SplitLines(newText))
  }

  // ---- Applying hunks (any hunks, not only computed ones) ----

  function Min(a: int, b: int): int { if a < b then a else b }

  /** Old lines from `cursor` up to `stop`, as far as they exist. */
  function Gap<T>(o: seq<T>, cursor: nat, stop: int): seq<T> {
    if cursor < Min(stop, |o|) then o[cursor..Min(stop, |o|)] else []
  }

  function Side<T>(h: Hunk<T>, accepted: Accepted): seq<T> {
    if Chosen(accepted, h.id) then h.newLines else h.oldLines
  }

  function ApplyFrom<T>(o: seq<T>, hunks: seq<Hunk<T>>, accepted: Accepted, cursor: nat): seq<T> {
    if hunks == [] then Gap(o, cursor, |o|)
    else
      var h := hunks[0];
      var gap := Gap(o, cursor, h.oldStart);
      gap + (Side(h, accepted) + ApplyFrom(o, hunks[1..], accepted, cursor + |gap| + |h.oldLines|))
  }

  /** What ApplyHunks returns. */
  function Applied(oldText: string, hunks: seq<Hunk<string>>, accepted: Accepted): string {
    JoinLines(ApplyFrom(SplitLines(oldText), hunks, accepted, 0))
  }

  // ---- Loop steps of the methods below ----

  lemma MiddleSlice<X>(p: seq<X>, m: seq<X>, q: seq<X>, all: seq<X>, i: nat, j: nat)
    requires all == p + m + q && |p| <= i <= j <= |p| + |m|
    ensures all[i..j] == m[i - |p|..j - |p|]
  {
  }

  /** Leading equal lines shift the start lines, trailing ones add nothing. */
  lemma {:induction false} GroupPadded<T>(p: seq<T>, ops: seq<Op<T>>, q: seq<T>, all: seq<Op<T>>, i: nat, at: nat,
                                          id: int)
    requires all == Equals(p) + ops + Equals(q) && i <= |all|
    ensures i <= |p| ==> Group(all, i, at, id) == Group(ops, 0, at + |p| - i, id)
    ensures |p| <= i <= |p| + |ops| ==> Group(all, i, at, id) == Group(ops, i - |p|, at, id)
    ensures |p| + |ops| <= i ==> Group(all, i, at, id) == []
    decreases |all| - i
  {
    if i == |all| {
    } else if all[i].Equal? {
      GroupPadded(p, ops, q, all, i + 1, at + 1, id);
    } else {
      var e := RunEnd(all, i);
      RunPadded(p, ops, q, all, i);
      MiddleSlice(Equals(p), ops, Equals(q), all, i, e);
      GroupPadded(p, ops, q, all, e, at + |OldOf(all[i..e])|, id + 1);
    }
  }

  lemma {:induction false} RunPadded<T>(p: seq<T>, ops: seq<Op<T>>, q: seq<T>, all: seq<Op<T>>, i: nat)
    requires all == Equals(p) + ops + Equals(q) && |p| <= i <= |p| + |ops|
    ensures RunEnd(all, i) == |p| + RunEnd(ops, i - |p|)
    decreases |all| - i
  {
    if i < |p| + |ops| {
      RunPadded(p, ops, q, all, i + 1);
    }
  }

  lemma GroupTrimmed<T>(o: seq<T>, n: seq<T>, pre: nat, suf: nat)
    requires pre + suf <= |o| && pre + suf <= |n|
    ensures Group(TrimmedScript(o, n, pre, suf), 0, 0, 0)
            == Group(Diff(o[pre..|o| - suf], n[pre..|n| - suf]), 0, pre, 0)
  {
    var ops := Diff(o[pre..|o| - suf], n[pre..|n| - suf]);
    GroupPadded(o[..pre], ops, o[|o| - suf..], TrimmedScript(o, n, pre, suf), 0, 0, 0);
  }

  lemma ScriptSnoc<T>(ops: seq<Op<T>>, from: nat, i: nat)
    requires from <= i < |ops|
    ensures var o, n := OldOf(ops[from..i]), NewOf(ops[from..i]);
            OldOf(ops[from..i + 1]) == (if ops[i].Ins? then o else o + [ops[i].line]) &&
            NewOf(ops[from..i + 1]) == (if ops[i].Del? then n else n + [ops[i].line])
  {
    assert ops[from..i + 1] == ops[from..i] + [ops[i]];
    OpsConcat(ops[from..i], [ops[i]]);
    assert OldOf([ops[i]]) == if ops[i].Ins? then [] else [ops[i].line];
    assert NewOf([ops[i]]) == if ops[i].Del? then [] else [ops[i].line];
  }

  /** What the hunks from `k` on still have to produce. */
  function ApplyAt<T>(o: seq<T>, hunks: seq<Hunk<T>>, k: nat, accepted: Accepted, cursor: nat): seq<T>
    requires k <= |hunks|
  {
    ApplyFrom(o, hunks[k..], accepted, cursor)
  }

  lemma ApplyAtStep<T>(o: seq<T>, hunks: seq<Hunk<T>>, k: nat, accepted: Accepted, cursor: nat, gap: seq<T>)
    requires k < |hunks| && gap == Gap(o, cursor, hunks[k].oldStart)
    ensures ApplyAt(o, hunks, k, accepted, cursor)
            == gap + (Side(hunks[k], accepted)
                      + ApplyAt(o, hunks, k + 1, accepted, cursor + |gap| + |hunks[k].oldLines|))
  {
    var left := hunks[k..];
    assert left[0] == hunks[k];
    assert left[1..] == hunks[k + 1..];
  }

  lemma AppendStep<T>(out: seq<T>, gap: seq<T>, side: seq<T>, rest: seq<T>, todo: seq<T>, want: seq<T>)
    requires todo == gap + (side + rest) && out + todo == want
    ensures out + gap + side + rest == want
  {
    Assoc(out, gap, side + rest);
    Assoc(out + gap, side, rest);
  }

  lemma ApplyAtEnds<T>(o: seq<T>, hunks: seq<Hunk<T>>, accepted: Accepted, cursor: nat)
    ensures ApplyAt(o, hunks, 0, accepted, 0) == ApplyFrom(o, hunks, accepted, 0)
    ensures ApplyAt(o, hunks, |hunks|, accepted, cursor) == Gap(o, cursor, |o|)
  {
    assert hunks[0..] == hunks;
  }

  // ---- The algorithms of the source ----

  method CommonPrefix<T(==)>(a: seq<T>, b: seq<T>) returns (i: nat)
    ensures i == PrefixLen(a, b)
  {
    i := 0;
    while i < |a| && i < |b| && a[i] == b[i]
      invariant i <= |a| && i <= |b|
      invariant PrefixLen(a, b) == PrefixFrom(a, b, i)
    {
      i := i + 1;
    }
  }

  method CommonSuffix<T(==)>(a: seq<T>, b: seq<T>) returns (i: nat)
    ensures i == SuffixLen(a, b)
  {
    i := 0;
    while i < |a| && i < |b| && a[|a| - 1 - i] == b[|b| - 1 - i]
      invariant i <= |a| && i <= |b|
      invariant SuffixLen(a, b) == SuffixFrom(a, b, i)
    {
      i := i + 1;
    }
  }

  method LcsTable<T(==)>(o: seq<T>, n: seq<T>) returns (t: array2<nat>)
    ensures fresh(t) && t.Length0 == |o| + 1 && t.Length1 == |n| + 1
    ensures forall i, j {:trigger t[i, j]} :: 0 <= i <= |o| && 0 <= j <= |n| ==> t[i, j] == LcsAt(o, n, i, j)
  {
    t := new nat[|o| + 1, |n| + 1]((_, _) => 0);
    var i: int := |o| - 1;
    while i >= 0
      invariant -1 <= i < |o|
      invariant forall p :: 0 <= p <= i ==> t[p, |n|] == 0
      invariant forall p, q {:trigger t[p, q]} :: i < p <= |o| && 0 <= q <= |n| ==> t[p, q] == LcsAt(o, n, p, q)
    {
      var j: int := |n| - 1;
      while j >= 0
        invariant -1 <= j < |n|
        invariant forall p :: 0 <= p <= i ==> t[p, |n|] == 0
        invariant forall p, q {:trigger t[p, q]} :: i < p <= |o| && 0 <= q <= |n| ==> t[p, q] == LcsAt(o, n, p, q)
        invariant forall q {:trigger t[i, q]} :: j < q <= |n| ==> t[i, q] == LcsAt(o, n, i, q)
      {
        if o[i] == n[j] {
          t[i, j] := t[i + 1, j + 1] + 1;
        } else if t[i + 1, j] >= t[i, j + 1] {
          t[i, j] := t[i + 1, j];
        } else {
          t[i, j] := t[i, j + 1];
        }
        j := j - 1;
      }
      i := i - 1;
    }
  }

  lemma DiffStep<T>(o: seq<T>, n: seq<T>, i: nat, j: nat, ops: seq<Op<T>>, want: seq<Op<T>>, x: Op<T>, i': nat, j': nat)
    requires i <= i' <= |o| && j <= j' <= |n| && ops + DiffFrom(o, n, i, j) == want
    requires DiffFrom(o, n, i, j) == [x] + DiffFrom(o, n, i', j')
    ensures ops + [x] + DiffFrom(o, n, i', j') == want
  {
    Assoc(ops, [x], DiffFrom(o, n, i', j'));
  }

  method DiffMiddle<T(==)>(o: seq<T>, n: seq<T>) returns (ops: seq<Op<T>>)
    ensures ops == Diff(o, n)
  {
    var lcs := LcsTable(o, n);
    ghost var want := Diff(o, n);
    ops := [];
    var i, j := 0, 0;
    while i < |o| && j < |n|
      invariant i <= |o| && j <= |n|
      invariant forall p, q {:trigger lcs[p, q]} :: 0 <= p <= |o| && 0 <= q <= |n| ==> lcs[p, q] == LcsAt(o, n, p, q)
      invariant ops + DiffFrom(o, n, i, j) == want
    {
      if o[i] == n[j] {
        DiffStep(o, n, i, j, ops, want, Equal(o[i]), i + 1, j + 1);
        ops := ops + [Equal(o[i])];
        i, j := i + 1, j + 1;
      } else if lcs[i + 1, j] >= lcs[i, j + 1] {
        DiffStep(o, n, i, j, ops, want, Del(o[i]), i + 1, j);
        ops := ops + [Del(o[i])];
        i := i + 1;
      } else {
        DiffStep(o, n, i, j, ops, want, Ins(n[j]), i, j + 1);
        ops := ops + [Ins(n[j])];
        j := j + 1;
      }
    }
    while i < |o|
      invariant i <= |o| && j <= |n| && (i == |o| || j == |n|)
      invariant ops + DiffFrom(o, n, i, j) == want
    {
      DiffStep(o, n, i, j, ops, want, Del(o[i]), i + 1, j);
      ops := ops + [Del(o[i])];
      i := i + 1;
    }
    while j < |n|
      invariant i == |o| && j <= |n|
      invariant ops + DiffFrom(o, n, i, j) == want
    {
      DiffStep(o, n, i, j, ops, want, Ins(n[j]), i, j + 1);
      ops := ops + [Ins(n[j])];
      j := j + 1;
    }
  }

  method ComputeHunks(oldText: string, newText: string) returns (hunks: seq<Hunk<string>>)
    ensures hunks == HunksOf(oldText, newText)
  {
    var o := SplitLines(oldText);
    var n := SplitLines(newText);
    var pre := CommonPrefix(o, n);
    var suf := CommonSuffix(o[pre..], n[pre..]);
    var ops := DiffMiddle(o[pre..|o| - suf], n[pre..|n| - suf]);
    hunks := GroupOps(ops, pre);
    GroupTrimmed(o, n, pre, suf);
  }

  /** The grouping loop of ComputeHunks, offset by the prefix length. */
  method GroupOps<T>(ops: seq<Op<T>>, pre: nat) returns (hunks: seq<Hunk<T>>)
    ensures hunks == Group(ops, 0, pre, 0)
  {
    hunks := [];
    var id := 0;
    var oi := pre;
    var i := 0;
    while i < |ops|
      invariant i <= |ops|
      invariant hunks + Group(ops, i, oi, id) == Group(ops, 0, pre, 0)
    {
      if ops[i].Equal? {
        oi := oi + 1;
        i := i + 1;
        continue;
      }
      var start := oi;
      ghost var from := i;
      var oldL, newL := [], [];
      while i < |ops| && !ops[i].Equal?
        invariant from <= i <= |ops| && RunEnd(ops, i) == RunEnd(ops, from)
        invariant oldL == OldOf(ops[from..i]) && newL == NewOf(ops[from..i])
        invariant oi == start + |oldL|
        invariant |oldL| + |newL| >= i - from
      {
        ScriptSnoc(ops, from, i);
        match ops[i] {
          case Del(line) =>
            oldL := oldL + [line];
            oi := oi + 1;
          case Ins(line) =>
            newL := newL + [line];
          case Equal(_) =>
        }
        i := i + 1;
      }
      if |oldL| == 0 && |newL| == 0 {
        assert false; // the source's "skip no-op hunks" branch is never taken
      }
      hunks := hunks + [Hunk(id, start, oldL, newL)];
      id := id + 1;
    }
  }

  method ApplyHunks(oldText: string, hunks: seq<Hunk<string>>, accepted: Accepted) returns (text: string)
    ensures text == Applied(oldText, hunks, accepted)
  {
    var out := ApplyLines(SplitLines(oldText), hunks, accepted);
    text := JoinLines(out);
  }

  /** Both copying loops of ApplyHunks: unchanged lines up to `stop`, as far as they exist. */
  method CopyGap<T>(o: seq<T>, from: nat, stop: int, out: seq<T>) returns (cursor: nat, longer: seq<T>)
    ensures longer == out + Gap(o, from, stop)
    ensures cursor == from + |Gap(o, from, stop)|
  {
    cursor, longer := from, out;
    while cursor < stop && cursor < |o|
      invariant from <= cursor && (from < cursor ==> cursor <= stop && cursor <= |o|)
      invariant longer == out + Gap(o, from, cursor)
    {
      longer := longer + [o[cursor]];
      cursor := cursor + 1;
    }
  }

  /** The loops of ApplyHunks. */
  method ApplyLines<T>(o: seq<T>, hunks: seq<Hunk<T>>, accepted: Accepted) returns (out: seq<T>)
    ensures out == ApplyFrom(o, hunks, accepted, 0)
  {
    out := [];
    var cursor: nat := 0;
    ghost var want := ApplyFrom(o, hunks, accepted, 0);
    ApplyAtEnds(o, hunks, accepted, 0);
    for k := 0 to |hunks|
      invariant out + ApplyAt(o, hunks, k, accepted, cursor) == want
    {
      var h := hunks[k];
      ghost var before, from := out, cursor;
      cursor, out := CopyGap(o, cursor, h.oldStart, out);
      out := out + Side(h, accepted);
      cursor := cursor + |h.oldLines|;
      ghost var gap := Gap(o, from, h.oldStart);
      ApplyAtStep(o, hunks, k, accepted, from, gap);
      AppendStep(before, gap, Side(h, accepted), ApplyAt(o, hunks, k + 1, accepted, cursor),
                 ApplyAt(o, hunks, k, accepted, from), want);
    }
    ApplyAtEnds(o, hunks, accepted, cursor);
    cursor, out := CopyGap(o, cursor, |o|, out);
  }
}
