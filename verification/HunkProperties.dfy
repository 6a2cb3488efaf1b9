/** What the line diff and its per-hunk application promise, for all texts and all choices. */
module HunkProperties {
  import opened LineDistance
  import opened EditScript
  import opened Hunks
  import opened Sequences

  // ---- Reading a script line by line, with hunk `id` being current or next ----

  /** The text that results when the hunks with chosen ids are taken and the others are not.
      `open` says that the line before belongs to hunk `id`. */
  function Mix<T>(ops: seq<Op<T>>, i: nat, id: int, open: bool, accepted: Accepted): seq<T>
    requires i <= |ops|
    decreases |ops| - i
  {
    if i == |ops| then []
    else
      var yes := Chosen(accepted, id);
      match ops[i]
      case Equal(l) => [l] + Mix(ops, i + 1, if open then id + 1 else id, false, accepted)
      case Del(l) => (if yes then [] else [l]) + Mix(ops, i + 1, id, true, accepted)
      case Ins(l) => (if yes then [l] else []) + Mix(ops, i + 1, id, true, accepted)
  }

  /** Deletions and insertions in hunks whose choice is `want`. */
  function CostWhere<T>(ops: seq<Op<T>>, i: nat, id: int, open: bool, accepted: Accepted, want: bool): nat
    requires i <= |ops|
    decreases |ops| - i
  {
    if i == |ops| then 0
    else if ops[i].Equal? then CostWhere(ops, i + 1, if open then id + 1 else id, false, accepted, want)
    else (if Chosen(accepted, id) == want then 1 else 0) + CostWhere(ops, i + 1, id, true, accepted, want)
  }

  function SizeWhere<T>(hunks: seq<Hunk<T>>, accepted: Accepted, want: bool): nat {
    if hunks == [] then 0
    else (if Chosen(accepted, hunks[0].id) == want then hunks[0].Size() else 0)
         + SizeWhere(hunks[1..], accepted, want)
  }

  function TotalSize<T>(hunks: seq<Hunk<T>>): nat {
    if hunks == [] then 0 else hunks[0].Size() + TotalSize(hunks[1..])
  }

  lemma OpsTail<T>(ops: seq<Op<T>>, i: nat)
    requires i < |ops|
    ensures ops[i..] == [ops[i]] + ops[i + 1..]
    ensures OldOf(ops[i..]) == if ops[i].Ins? then OldOf(ops[i + 1..]) else [ops[i].line] + OldOf(ops[i + 1..])
    ensures NewOf(ops[i..]) == if ops[i].Del? then NewOf(ops[i + 1..]) else [ops[i].line] + NewOf(ops[i + 1..])
    ensures Cost(ops[i..]) == (if ops[i].Equal? then 0 else 1) + Cost(ops[i + 1..])
  {
    assert ops[i..][1..] == ops[i + 1..];
  }

  lemma OpsCut<T>(ops: seq<Op<T>>, i: nat, e: nat)
    requires i <= e <= |ops|
    ensures ops[i..] == ops[i..e] + ops[e..]
    ensures OldOf(ops[i..]) == OldOf(ops[i..e]) + OldOf(ops[e..])
    ensures NewOf(ops[i..]) == NewOf(ops[i..e]) + NewOf(ops[e..])
    ensures Cost(ops[i..]) == Cost(ops[i..e]) + Cost(ops[e..])
  {
    assert ops[i..] == ops[i..e] + ops[e..];
    OpsConcat(ops[i..e], ops[e..]);
  }

  // ---- A whole run at a time ----

  lemma RunTail<T>(ops: seq<Op<T>>, i: nat, e: nat)
    requires i < e <= |ops|
    ensures OldOf(ops[i..e]) == if ops[i].Ins? then OldOf(ops[i + 1..e]) else [ops[i].line] + OldOf(ops[i + 1..e])
    ensures NewOf(ops[i..e]) == if ops[i].Del? then NewOf(ops[i + 1..e]) else [ops[i].line] + NewOf(ops[i + 1..e])
    ensures Cost(ops[i..e]) == (if ops[i].Equal? then 0 else 1) + Cost(ops[i + 1..e])
  {
    ScriptCons(ops[i], ops[i + 1..e], ops[i..e]);
  }

  lemma {:induction false} RunSizes<T>(ops: seq<Op<T>>, i: nat, e: nat)
    requires i <= |ops| && e == RunEnd(ops, i)
    ensures Cost(ops[i..e]) == |OldOf(ops[i..e])| + |NewOf(ops[i..e])| == e - i
    decreases e - i
  {
    if i < e {
      RunSizes(ops, i + 1, e);
      RunTail(ops, i, e);
    }
  }

  lemma {:induction false} RunCosts<T>(ops: seq<Op<T>>, i: nat, e: nat, id: int, open: bool, accepted: Accepted,
                                       want: bool)
    requires i <= |ops| && e == RunEnd(ops, i)
    ensures CostWhere(ops, i, id, open, accepted, want)
            == (if Chosen(accepted, id) == want then e - i else 0)
               + CostWhere(ops, e, id, open || i < e, accepted, want)
    decreases e - i
  {
    if i < e {
      RunCosts(ops, i + 1, e, id, true, accepted, want);
    }
  }

  /** The lines of a run, as the current hunk's choice picks them. */
  function Picked<T>(ops: seq<Op<T>>, i: nat, e: nat, id: int, accepted: Accepted): seq<T>
    requires i <= e <= |ops|
  {
    if Chosen(accepted, id) then NewOf(ops[i..e]) else OldOf(ops[i..e])
  }

  lemma PickedTail<T>(ops: seq<Op<T>>, i: nat, e: nat, id: int, accepted: Accepted, x: seq<T>)
    requires i < e <= |ops| && !ops[i].Equal?
    requires x == if ops[i].Ins? == Chosen(accepted, id) then [ops[i].line] else []
    ensures Picked(ops, i, e, id, accepted) == x + Picked(ops, i + 1, e, id, accepted)
  {
    RunTail(ops, i, e);
  }

  lemma {:induction false} RunReads<T>(ops: seq<Op<T>>, i: nat, e: nat, id: int, open: bool, accepted: Accepted)
    requires i <= |ops| && e == RunEnd(ops, i)
    ensures Mix(ops, i, id, open, accepted)
            == Picked(ops, i, e, id, accepted) + Mix(ops, e, id, open || i < e, accepted)
    decreases e - i
  {
    if i < e {
      var x := if ops[i].Ins? == Chosen(accepted, id) then [ops[i].line] else [];
      RunReads(ops, i + 1, e, id, true, accepted);
      PickedTail(ops, i, e, id, accepted, x);
      Assoc(x, Picked(ops, i + 1, e, id, accepted), Mix(ops, e, id, true, accepted));
    }
  }

  /** Once a run has ended, the next line belongs to the next hunk. */
  lemma AfterRun<T>(ops: seq<Op<T>>, e: nat, id: int, accepted: Accepted, want: bool)
    requires e <= |ops| && (e < |ops| ==> ops[e].Equal?)
    ensures Mix(ops, e, id, true, accepted) == Mix(ops, e, id + 1, false, accepted)
    ensures CostWhere(ops, e, id, true, accepted, want) == CostWhere(ops, e, id + 1, false, accepted, want)
  {
  }

  lemma RunMixes<T>(ops: seq<Op<T>>, i: nat, at: nat, id: int, accepted: Accepted)
    requires i < |ops| && !ops[i].Equal?
    ensures Mix(ops, i, id, false, accepted)
            == Side(RunHunk(ops, i, at, id), accepted) + Mix(ops, RunEnd(ops, i), id + 1, false, accepted)
  {
    RunReads(ops, i, RunEnd(ops, i), id, false, accepted);
    AfterRun(ops, RunEnd(ops, i), id, accepted, true);
  }

  lemma GroupRun<T>(ops: seq<Op<T>>, i: nat, at: nat, id: int)
    requires i < |ops| && !ops[i].Equal?
    ensures var h := RunHunk(ops, i, at, id);
            Group(ops, i, at, id) == [h] + Group(ops, RunEnd(ops, i), at + |h.oldLines|, id + 1)
  {
  }

  // ---- Sizes ----

  lemma SizeCons<T>(h: Hunk<T>, hunks: seq<Hunk<T>>, accepted: Accepted, want: bool)
    ensures TotalSize([h] + hunks) == h.Size() + TotalSize(hunks)
    ensures SizeWhere([h] + hunks, accepted, want)
            == (if Chosen(accepted, h.id) == want then h.Size() else 0) + SizeWhere(hunks, accepted, want)
  {
    assert ([h] + hunks)[1..] == hunks;
  }

  lemma RunCostIsSize<T>(ops: seq<Op<T>>, i: nat, e: nat, at: nat, id: int)
    requires i <= |ops| && e == RunEnd(ops, i)
    ensures RunHunk(ops, i, at, id).Size() == e - i
    ensures Cost(ops[i..]) == e - i + Cost(ops[e..])
  {
    RunSizes(ops, i, e);
    OpsCut(ops, i, e);
  }

  lemma {:induction false} GroupSizes<T>(ops: seq<Op<T>>, i: nat, at: nat, id: int, accepted: Accepted, want: bool,
                                         hunks: seq<Hunk<T>>)
    requires i <= |ops| && hunks == Group(ops, i, at, id)
    ensures TotalSize(hunks) == Cost(ops[i..])
    ensures SizeWhere(hunks, accepted, want) == CostWhere(ops, i, id, false, accepted, want)
    decreases |ops| - i
  {
    if i == |ops| {
    } else if ops[i].Equal? {
      OpsTail(ops, i);
      GroupSizes(ops, i + 1, at + 1, id, accepted, want, hunks);
    } else {
      var e := RunEnd(ops, i);
      var h := RunHunk(ops, i, at, id);
      var rest := Group(ops, e, at + |h.oldLines|, id + 1);
      RunCosts(ops, i, e, id, false, accepted, want);
      AfterRun(ops, e, id, accepted, want);
      RunCostIsSize(ops, i, e, at, id);
      GroupSizes(ops, e, at + |h.oldLines|, id + 1, accepted, want, rest);
      SizeCons(h, rest, accepted, want);
    }
  }

  lemma {:induction false} SizesSplit<T>(hunks: seq<Hunk<T>>, accepted: Accepted)
    ensures SizeWhere(hunks, accepted, true) + SizeWhere(hunks, accepted, false) == TotalSize(hunks)
  {
    if hunks != [] {
      SizesSplit(hunks[1..], accepted);
    }
  }

  /** The diff is minimal: no set of line deletions and insertions turning the old text into
      the new one is smaller than the computed hunks together. */
  lemma HunksAreMinimal(oldText: string, newText: string)
    ensures var o, n := SplitLines(oldText), SplitLines(newText);
            TotalSize(HunksOf(oldText, newText)) == |o| + |n| - 2 * Lcs(o, n)
  {
    var o, n := SplitLines(oldText), SplitLines(newText);
    ScriptIsMinimal(o, n);
    GroupSizes(Script(o, n), 0, 0, 0, map[], true, HunksOfLines(o, n));
    assert Script(o, n)[0..] == Script(o, n);
  }

  // ---- Shape ----

  /** Hunks numbered from `id` whose old side lies at or after line `from` of `o`. */
  ghost predicate CanonicalFrom<T>(o: seq<T>, hunks: seq<Hunk<T>>, from: int, id: int) {
    hunks == [] ||
    (var h := hunks[0];
     h.id == id && h.Size() > 0 &&
     from <= h.oldStart && 0 <= h.oldStart && h.oldStart + |h.oldLines| <= |o| &&
     o[h.oldStart..h.oldStart + |h.oldLines|] == h.oldLines &&
     CanonicalFrom(o, hunks[1..], h.oldStart + |h.oldLines| + 1, id + 1))
  }

  /** Numbered 0, 1, ...; each changes something; each old side is the slice of `o` it claims;
      neighbours are separated by at least one unchanged line. */
  ghost predicate Canonical<T>(o: seq<T>, hunks: seq<Hunk<T>>) {
    && (forall k :: 0 <= k < |hunks| ==> hunks[k].id == k && hunks[k].Size() > 0)
    && (forall k :: 0 <= k < |hunks| ==>
          0 <= hunks[k].oldStart && hunks[k].oldStart + |hunks[k].oldLines| <= |o| &&
          o[hunks[k].oldStart..hunks[k].oldStart + |hunks[k].oldLines|] == hunks[k].oldLines)
    && (forall j, k :: 0 <= j < k < |hunks| ==>
          hunks[j].oldStart + |hunks[j].oldLines| < hunks[k].oldStart)
  }

  lemma CanonicalCons<T>(o: seq<T>, h: Hunk<T>, hunks: seq<Hunk<T>>, from: int, all: seq<Hunk<T>>)
    requires all == [h] + hunks
    requires h.Size() > 0 && 0 <= from <= h.oldStart && h.oldStart + |h.oldLines| <= |o|
    requires o[h.oldStart..h.oldStart + |h.oldLines|] == h.oldLines
    requires CanonicalFrom(o, hunks, h.oldStart + |h.oldLines| + 1, h.id + 1)
    ensures CanonicalFrom(o, all, from, h.id)
  {
    assert all[1..] == hunks;
  }

  lemma SliceAt<T>(o: seq<T>, at: nat, x: seq<T>, rest: seq<T>)
    requires at <= |o| && o[at..] == x + rest
    ensures at + |x| <= |o| && o[at..at + |x|] == x && o[at + |x|..] == rest
  {
    assert o[at..at + |x|] == o[at..][..|x|] && o[at + |x|..] == o[at..][|x|..];
  }

  /** Script index `i` stands at old line `at`. */
  ghost predicate At<T>(o: seq<T>, ops: seq<Op<T>>, i: nat, at: nat) {
    i <= |ops| && at <= |o| && o[at..] == OldOf(ops[i..])
  }

  lemma AtEqual<T>(o: seq<T>, ops: seq<Op<T>>, i: nat, at: nat)
    requires At(o, ops, i, at) && i < |ops| && ops[i].Equal?
    ensures At(o, ops, i + 1, at + 1) && o[at] == ops[i].line
  {
    OpsTail(ops, i);
    SliceAt(o, at, [ops[i].line], OldOf(ops[i + 1..]));
    assert o[at] == o[at..][0];
  }

  lemma AtRun<T>(o: seq<T>, ops: seq<Op<T>>, i: nat, at: nat, id: int)
    requires At(o, ops, i, at) && i < |ops| && !ops[i].Equal?
    ensures var h := RunHunk(ops, i, at, id);
            At(o, ops, RunEnd(ops, i), at + |h.oldLines|) && o[at..at + |h.oldLines|] == h.oldLines && h.Size() > 0
  {
    var e := RunEnd(ops, i);
    RunSizes(ops, i, e);
    OpsCut(ops, i, e);
    SliceAt(o, at, OldOf(ops[i..e]), OldOf(ops[e..]));
  }

  lemma {:induction false} GroupIsCanonicalFrom<T>(o: seq<T>, ops: seq<Op<T>>, i: nat, at: nat, id: int,
                                                   hunks: seq<Hunk<T>>)
    requires At(o, ops, i, at) && hunks == Group(ops, i, at, id)
    ensures CanonicalFrom(o, hunks, at, id)
    decreases |ops| - i
  {
    if i == |ops| {
    } else if ops[i].Equal? {
      AtEqual(o, ops, i, at);
      GroupIsCanonicalFrom(o, ops, i + 1, at + 1, id, hunks);
      CanonicalWeaken(o, hunks, at + 1, at, id);
    } else {
      var e := RunEnd(ops, i);
      var h := RunHunk(ops, i, at, id);
      var next := at + |h.oldLines|;
      var rest := Group(ops, e, next, id + 1);
      AtRun(o, ops, i, at, id);
      GroupRun(ops, i, at, id);
      if e < |ops| {
        AtEqual(o, ops, e, next);
        GroupIsCanonicalFrom(o, ops, e + 1, next + 1, id + 1, rest);
      }
      CanonicalCons(o, h, rest, at, hunks);
    }
  }

  lemma CanonicalWeaken<T>(o: seq<T>, hunks: seq<Hunk<T>>, from: int, lower: int, id: int)
    requires CanonicalFrom(o, hunks, from, id) && lower <= from
    ensures CanonicalFrom(o, hunks, lower, id)
  {
  }

  lemma {:induction false} CanonicalByIndex<T>(o: seq<T>, hunks: seq<Hunk<T>>, from: int, id: int)
    requires CanonicalFrom(o, hunks, from, id)
    ensures forall k :: 0 <= k < |hunks| ==>
              hunks[k].id == id + k && hunks[k].Size() > 0 && from <= hunks[k].oldStart &&
              0 <= hunks[k].oldStart && hunks[k].oldStart + |hunks[k].oldLines| <= |o| &&
              o[hunks[k].oldStart..hunks[k].oldStart + |hunks[k].oldLines|] == hunks[k].oldLines
    ensures forall j, k :: 0 <= j < k < |hunks| ==>
              hunks[j].oldStart + |hunks[j].oldLines| < hunks[k].oldStart
  {
    if hunks != [] {
      var h, rest := hunks[0], hunks[1..];
      CanonicalByIndex(o, rest, h.oldStart + |h.oldLines| + 1, id + 1);
      assert forall k :: 0 < k < |hunks| ==> hunks[k] == rest[k - 1];
    }
  }

  lemma ScriptStarts<T>(o: seq<T>, n: seq<T>)
    ensures At(o, Script(o, n), 0, 0)
  {
    ScriptIsMinimal(o, n);
    assert Script(o, n)[0..] == Script(o, n) && o[0..] == o;
  }

  lemma LineHunksAreCanonical<T>(o: seq<T>, n: seq<T>)
    ensures Canonical(o, HunksOfLines(o, n))
  {
    var hunks := HunksOfLines(o, n);
    ScriptStarts(o, n);
    GroupIsCanonicalFrom(o, Script(o, n), 0, 0, 0, hunks);
    CanonicalByIndex(o, hunks, 0, 0);
  }

  lemma HunksAreCanonical(oldText: string, newText: string)
    ensures Canonical(SplitLines(oldText), HunksOf(oldText, newText))
  {
    LineHunksAreCanonical(SplitLines(oldText), SplitLines(newText));
  }

  // ---- No line is on both sides of a hunk ----

  /** Both halves of a minimal script are minimal. */
  lemma MinimalHalves<T>(p: seq<Op<T>>, q: seq<Op<T>>)
    requires Cost(p + q) == Distance(OldOf(p + q), NewOf(p + q))
    ensures Cost(p) == Distance(OldOf(p), NewOf(p))
    ensures Cost(q) == Distance(OldOf(q), NewOf(q))
  {
    OpsConcat(p, q);
    CostBoundsDistance(p);
    CostBoundsDistance(q);
    DistanceConcat(OldOf(p), NewOf(p), OldOf(q), NewOf(q));
  }

  ghost predicate SidesDisjoint<T>(h: Hunk<T>) {
    forall x :: x in h.oldLines ==> x !in h.newLines
  }

  lemma {:induction false} MinimalHunksDisjoint<T>(ops: seq<Op<T>>, i: nat, at: nat, id: int)
    requires i <= |ops| && Cost(ops[i..]) == Distance(OldOf(ops[i..]), NewOf(ops[i..]))
    ensures forall k :: 0 <= k < |Group(ops, i, at, id)| ==> SidesDisjoint(Group(ops, i, at, id)[k])
    decreases |ops| - i
  {
    if i == |ops| {
    } else if ops[i].Equal? {
      assert ops[i..] == [ops[i]] + ops[i + 1..];
      MinimalHalves([ops[i]], ops[i + 1..]);
      MinimalHunksDisjoint(ops, i + 1, at + 1, id);
    } else {
      var e := RunEnd(ops, i);
      var oldL, newL := OldOf(ops[i..e]), NewOf(ops[i..e]);
      assert ops[i..] == ops[i..e] + ops[e..];
      MinimalHalves(ops[i..e], ops[e..]);
      RunSizes(ops, i, e);
      forall x | x in oldL
        ensures x !in newL
      {
        if x in newL {
          SharedLineShortens(x, oldL, newL);
        }
      }
      MinimalHunksDisjoint(ops, e, at + |oldL|, id + 1);
    }
  }

  lemma NoLineOnBothSides(oldText: string, newText: string)
    ensures forall k :: 0 <= k < |HunksOf(oldText, newText)| ==> SidesDisjoint(HunksOf(oldText, newText)[k])
  {
    var o, n := SplitLines(oldText), SplitLines(newText);
    ScriptIsMinimal(o, n);
    assert Script(o, n)[0..] == Script(o, n);
    MinimalHunksDisjoint(Script(o, n), 0, 0, 0);
  }

  // ---- Applying the hunks ----

  lemma GapCons<T>(o: seq<T>, cursor: nat, stop: int)
    requires cursor < |o| && cursor < stop
    ensures Gap(o, cursor, stop) == [o[cursor]] + Gap(o, cursor + 1, stop)
  {
  }

  lemma ApplyUnfold<T>(o: seq<T>, hunks: seq<Hunk<T>>, accepted: Accepted, cursor: nat, gap: seq<T>, next: nat)
    requires hunks != [] && gap == Gap(o, cursor, hunks[0].oldStart) && next == cursor + |gap| + |hunks[0].oldLines|
    ensures ApplyFrom(o, hunks, accepted, cursor)
            == gap + (Side(hunks[0], accepted) + ApplyFrom(o, hunks[1..], accepted, next))
  {
    var h := hunks[0];
    assert next == cursor + |Gap(o, cursor, h.oldStart)| + |h.oldLines|;
    assert ApplyFrom(o, hunks, accepted, cursor)
        == Gap(o, cursor, h.oldStart) + (Side(h, accepted) + ApplyFrom(o, hunks[1..], accepted, next));
  }

  /** An unchanged line before the first hunk is passed through. */
  lemma ApplySkip<T>(o: seq<T>, hunks: seq<Hunk<T>>, accepted: Accepted, cursor: nat, rest: seq<T>)
    requires cursor < |o| && (hunks == [] || cursor < hunks[0].oldStart)
    requires rest == ApplyFrom(o, hunks, accepted, cursor + 1)
    ensures ApplyFrom(o, hunks, accepted, cursor) == [o[cursor]] + rest
  {
    if hunks == [] {
      GapCons(o, cursor, |o|);
    } else {
      ApplySkipTo(o, hunks, accepted, cursor, rest);
    }
  }

  lemma ApplySkipTo<T>(o: seq<T>, hunks: seq<Hunk<T>>, accepted: Accepted, cursor: nat, rest: seq<T>)
    requires hunks != [] && cursor < |o| && cursor < hunks[0].oldStart
    requires rest == ApplyFrom(o, hunks, accepted, cursor + 1)
    ensures ApplyFrom(o, hunks, accepted, cursor) == [o[cursor]] + rest
  {
    var h, x := hunks[0], [o[cursor]];
    var gap := Gap(o, cursor + 1, h.oldStart);
    var next := cursor + 1 + |gap| + |h.oldLines|;
    GapCons(o, cursor, h.oldStart);
    ApplyUnfold(o, hunks, accepted, cursor + 1, gap, next);
    ApplyUnfold(o, hunks, accepted, cursor, x + gap, next);
    Assoc(x, gap, Side(h, accepted) + ApplyFrom(o, hunks[1..], accepted, next));
  }

  /** With no unchanged line left before it, the first hunk is next. */
  lemma ApplyTake<T>(o: seq<T>, h: Hunk<T>, hunks: seq<Hunk<T>>, accepted: Accepted, cursor: nat, rest: seq<T>)
    requires cursor >= h.oldStart && rest == ApplyFrom(o, hunks, accepted, cursor + |h.oldLines|)
    ensures ApplyFrom(o, [h] + hunks, accepted, cursor) == Side(h, accepted) + rest
  {
    var gap := Gap(o, cursor, h.oldStart);
    assert gap == [] && ([h] + hunks)[1..] == hunks;
    assert [] + (Side(h, accepted) + rest) == Side(h, accepted) + rest;
  }

  lemma GroupStartsAfter<T>(o: seq<T>, ops: seq<Op<T>>, i: nat, at: nat, id: int, hunks: seq<Hunk<T>>)
    requires At(o, ops, i, at) && hunks == Group(ops, i, at, id)
    ensures hunks == [] || at <= hunks[0].oldStart
  {
    GroupIsCanonicalFrom(o, ops, i, at, id, hunks);
  }

  /** Applying the hunks of a script reads the script line by line. */
  lemma {:induction false} ApplyGroup<T>(o: seq<T>, ops: seq<Op<T>>, i: nat, at: nat, id: int, accepted: Accepted,
                                         hunks: seq<Hunk<T>>)
    requires At(o, ops, i, at) && hunks == Group(ops, i, at, id)
    ensures ApplyFrom(o, hunks, accepted, at) == Mix(ops, i, id, false, accepted)
    decreases |ops| - i
  {
    if i == |ops| {
      assert Gap(o, at, |o|) == [];
    } else if ops[i].Equal? {
      AtEqual(o, ops, i, at);
      GroupStartsAfter(o, ops, i + 1, at + 1, id, hunks);
      ApplyGroup(o, ops, i + 1, at + 1, id, accepted, hunks);
      ApplySkip(o, hunks, accepted, at, Mix(ops, i + 1, id, false, accepted));
    } else {
      var h, e := RunHunk(ops, i, at, id), RunEnd(ops, i);
      var rest := Group(ops, e, at + |h.oldLines|, id + 1);
      AtRun(o, ops, i, at, id);
      GroupRun(ops, i, at, id);
      ApplyGroup(o, ops, e, at + |h.oldLines|, id + 1, accepted, rest);
      ApplyTake(o, h, rest, accepted, at, Mix(ops, e, id + 1, false, accepted));
      RunMixes(ops, i, at, id, accepted);
    }
  }

  /** Every accept set yields exactly the intended mix. */
  lemma AppliedIsMix(oldText: string, newText: string, accepted: Accepted)
    ensures var ops := Script(SplitLines(oldText), SplitLines(newText));
            Applied(oldText, HunksOf(oldText, newText), accepted) == JoinLines(Mix(ops, 0, 0, false, accepted))
  {
    LinesAppliedIsMix(SplitLines(oldText), SplitLines(newText), accepted);
  }

  lemma LinesAppliedIsMix<T>(o: seq<T>, n: seq<T>, accepted: Accepted)
    ensures ApplyFrom(o, HunksOfLines(o, n), accepted, 0) == Mix(Script(o, n), 0, 0, false, accepted)
  {
    var ops := Script(o, n);
    ScriptIsMinimal(o, n);
    assert ops[0..] == ops && o[0..] == o;
    ApplyGroup(o, ops, 0, 0, 0, accepted, HunksOfLines(o, n));
  }

  // ---- A partly applied change lies between the two texts ----

  lemma OneLineApart<T>(x: T, a: seq<T>, b: seq<T>)
    ensures Distance([x] + a, [x] + b) == Distance(a, b)
    ensures Distance([x] + a, b) <= 1 + Distance(a, b)
    ensures Distance(a, [x] + b) <= 1 + Distance(a, b)
  {
    DistancePrefix([x], a, b);
    DistanceStep([x] + a, b);
    DistanceStep(a, [x] + b);
    assert ([x] + a)[1..] == a && ([x] + b)[1..] == b;
  }

  lemma {:induction false} MixIsBetween<T>(ops: seq<Op<T>>, i: nat, id: int, open: bool, accepted: Accepted)
    requires i <= |ops|
    ensures Distance(OldOf(ops[i..]), Mix(ops, i, id, open, accepted)) <= CostWhere(ops, i, id, open, accepted, true)
    ensures Distance(Mix(ops, i, id, open, accepted), NewOf(ops[i..])) <= CostWhere(ops, i, id, open, accepted, false)
    decreases |ops| - i
  {
    if i < |ops| {
      var x := ops[i].line;
      var id' := if ops[i].Equal? && open then id + 1 else id;
      var mix := Mix(ops, i + 1, id', !ops[i].Equal?, accepted);
      OpsTail(ops, i);
      MixIsBetween(ops, i + 1, id', !ops[i].Equal?, accepted);
      OneLineApart(x, OldOf(ops[i + 1..]), mix);
      OneLineApart(x, mix, NewOf(ops[i + 1..]));
      assert [] + mix == mix;
    }
  }

  /** Taking a set of hunks moves the text exactly their size away from the old text, and
      leaves it exactly the size of the other hunks away from the new one. */
  lemma AppliedDistances<T>(o: seq<T>, n: seq<T>, accepted: Accepted)
    ensures var hunks := HunksOfLines(o, n);
            var mix := ApplyFrom(o, hunks, accepted, 0);
            Distance(o, mix) == SizeWhere(hunks, accepted, true) &&
            Distance(mix, n) == SizeWhere(hunks, accepted, false)
  {
    var ops := Script(o, n);
    var hunks := HunksOfLines(o, n);
    var mix := Mix(ops, 0, 0, false, accepted);
    ScriptIsMinimal(o, n);
    assert ops[0..] == ops;
    LinesAppliedIsMix(o, n, accepted);
    MixIsBetween(ops, 0, 0, false, accepted);
    DistanceTriangle(o, mix, n);
    GroupSizes(ops, 0, 0, 0, accepted, true, hunks);
    GroupSizes(ops, 0, 0, 0, accepted, false, hunks);
    SizesSplit(hunks, accepted);
  }

  // ---- Which choices give the new text, and which the old ----

  ghost predicate EveryHunk<T>(hunks: seq<Hunk<T>>, accepted: Accepted, want: bool) {
    forall k :: 0 <= k < |hunks| ==> Chosen(accepted, hunks[k].id) == want
  }

  lemma {:induction false} SizeWhereZero<T>(hunks: seq<Hunk<T>>, accepted: Accepted, want: bool)
    requires forall k :: 0 <= k < |hunks| ==> hunks[k].Size() > 0
    ensures SizeWhere(hunks, accepted, want) == 0 <==> EveryHunk(hunks, accepted, !want)
  {
    if hunks != [] {
      SizeWhereZero(hunks[1..], accepted, want);
      assert forall k :: 0 < k < |hunks| ==> hunks[k] == hunks[1..][k - 1];
      if EveryHunk(hunks[1..], accepted, !want) && Chosen(accepted, hunks[0].id) == !want {
        assert EveryHunk(hunks, accepted, !want);
      }
      if EveryHunk(hunks, accepted, !want) {
        assert forall k :: 0 <= k < |hunks[1..]| ==> hunks[1..][k] == hunks[k + 1];
      }
    }
  }

  lemma LinesAppliedExtremes<T>(o: seq<T>, n: seq<T>, accepted: Accepted)
    ensures var hunks := HunksOfLines(o, n);
            var mix := ApplyFrom(o, hunks, accepted, 0);
            (mix == n <==> EveryHunk(hunks, accepted, true)) && (mix == o <==> EveryHunk(hunks, accepted, false))
  {
    var hunks := HunksOfLines(o, n);
    var mix := ApplyFrom(o, hunks, accepted, 0);
    AppliedDistances(o, n, accepted);
    DistanceZero(mix, n);
    DistanceZero(o, mix);
    LineHunksAreCanonical(o, n);
    SizeWhereZero(hunks, accepted, true);
    SizeWhereZero(hunks, accepted, false);
  }
}
