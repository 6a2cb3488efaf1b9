/** The line-level promises of HunkProperties carried over to whole file texts. */
module HunkTexts {
  import opened Lines
  import opened LineDistance
  import opened EditScript
  import opened Hunks
  import opened HunkProperties

  // ---- Texts and their lines ----

  lemma LinesOfText(text: string)
    ensures Free(SplitLines(text), '\n') && SplitLines(text) != [""]
    ensures JoinLines(SplitLines(text)) == text
  {
    if text != "" {
      SplitIsFree(text, '\n');
      JoinSplit(text, '\n');
    }
  }

  /** A list of lines survives being written out and read back unless it is one empty line. */
  lemma TextOfLines(lines: seq<string>)
    requires Free(lines, '\n')
    ensures SplitLines(JoinLines(lines)) == lines <==> lines != [""]
  {
    if lines != [] && lines != [""] {
      SplitJoin(lines, '\n');
      if |lines| == 1 {
        assert lines[0] != "";
      } else {
        assert |JoinLines(lines)| >= 1;
      }
    }
  }

  lemma SameLinesSameText(a: string, b: string)
    ensures SplitLines(a) == SplitLines(b) <==> a == b
  {
    LinesOfText(a);
    LinesOfText(b);
  }

  // ---- Nothing to review exactly when nothing changed ----

  lemma NoHunksIffEqual(oldText: string, newText: string)
    ensures HunksOf(oldText, newText) == [] <==> oldText == newText
  {
    var o, n := SplitLines(oldText), SplitLines(newText);
    HunksAreMinimal(oldText, newText);
    HunksAreCanonical(oldText, newText);
    DistanceZero(o, n);
    SameLinesSameText(oldText, newText);
  }

  // ---- Accepting and rejecting everything ----

  lemma {:induction false} OneSidedRun<T>(ops: seq<Op<T>>, i: nat)
    requires i <= |ops|
    requires OldOf(ops[i..]) == [] || NewOf(ops[i..]) == []
    ensures RunEnd(ops, i) == |ops|
    decreases |ops| - i
  {
    if i < |ops| {
      OpsTail(ops, i);
      OneSidedRun(ops, i + 1);
    }
  }

  /** A change from or to the empty text is a single hunk: all or nothing. */
  lemma OneSidedMix<T>(o: seq<T>, n: seq<T>, accepted: Accepted)
    requires o == [] || n == []
    ensures ApplyFrom(o, HunksOfLines(o, n), accepted, 0) == if Chosen(accepted, 0) then n else o
  {
    var ops := Script(o, n);
    ScriptIsMinimal(o, n);
    assert ops[0..] == ops && ops[0..|ops|] == ops;
    LinesAppliedIsMix(o, n, accepted);
    OneSidedRun(ops, 0);
    RunReads(ops, 0, |ops|, 0, false, accepted);
    assert n + [] == n && o + [] == o;
  }

  lemma OneSidedHunk<T>(o: seq<T>, n: seq<T>)
    requires (o == []) != (n == [])
    ensures |HunksOfLines(o, n)| == 1
  {
    var ops := Script(o, n);
    ScriptIsMinimal(o, n);
    assert ops[0..] == ops;
    OneSidedRun(ops, 0);
    GroupRun(ops, 0, 0, 0);
  }

  lemma {:induction false} MixLines<T>(ops: seq<Op<T>>, i: nat, id: int, open: bool, accepted: Accepted, x: T)
    requires i <= |ops| && x in Mix(ops, i, id, open, accepted)
    ensures x in OldOf(ops[i..]) || x in NewOf(ops[i..])
    decreases |ops| - i
  {
    OpsTail(ops, i);
    var id' := if ops[i].Equal? && open then id + 1 else id;
    if x in Mix(ops, i + 1, id', !ops[i].Equal?, accepted) {
      MixLines(ops, i + 1, id', !ops[i].Equal?, accepted, x);
    }
  }

  lemma AppliedLinesFree(oldText: string, newText: string, accepted: Accepted)
    ensures Free(ApplyFrom(SplitLines(oldText), HunksOf(oldText, newText), accepted, 0), '\n')
  {
    var o, n := SplitLines(oldText), SplitLines(newText);
    var mix := ApplyFrom(o, HunksOfLines(o, n), accepted, 0);
    LinesAppliedIsMix(o, n, accepted);
    ScriptIsMinimal(o, n);
    assert Script(o, n)[0..] == Script(o, n);
    LinesOfText(oldText);
    LinesOfText(newText);
    forall k | 0 <= k < |mix|
      ensures '\n' !in mix[k]
    {
      MixLines(Script(o, n), 0, 0, false, accepted, mix[k]);
    }
  }

  /** Two newline-free line lists with the same text are the same, or differ as [] and [""] do. */
  lemma JoinedEqual(mix: seq<string>, text: string)
    requires Free(mix, '\n')
    ensures JoinLines(mix) == text <==> mix == SplitLines(text) || (mix == [""] && text == "")
  {
    LinesOfText(text);
    TextOfLines(mix);
  }

  /** The result is the new text exactly when every hunk is accepted, and the old text exactly
      when none is. */
  lemma AppliedExtremes(oldText: string, newText: string, accepted: Accepted)
    ensures var hunks := HunksOf(oldText, newText);
            (Applied(oldText, hunks, accepted) == newText <==> EveryHunk(hunks, accepted, true)) &&
            (Applied(oldText, hunks, accepted) == oldText <==> EveryHunk(hunks, accepted, false))
  {
    var o, n := SplitLines(oldText), SplitLines(newText);
    var mix := ApplyFrom(o, HunksOfLines(o, n), accepted, 0);
    LinesAppliedExtremes(o, n, accepted);
    AppliedLinesFree(oldText, newText, accepted);
    JoinedEqual(mix, oldText);
    JoinedEqual(mix, newText);
    LinesOfText(oldText);
    LinesOfText(newText);
    if oldText == "" || newText == "" {
      OneSidedMix(o, n, accepted);
    }
  }

  // ---- Reading a partly applied text back ----

  /** The written file has the mixed lines unless the mix is a single empty line, which is
      written as the empty text and read back as no line at all. */
  lemma AppliedReadsBack(oldText: string, newText: string, accepted: Accepted)
    ensures var mix := ApplyFrom(SplitLines(oldText), HunksOf(oldText, newText), accepted, 0);
            SplitLines(Applied(oldText, HunksOf(oldText, newText), accepted)) == mix <==> mix != [""]
  {
    AppliedLinesFree(oldText, newText, accepted);
    TextOfLines(ApplyFrom(SplitLines(oldText), HunksOf(oldText, newText), accepted, 0));
  }

  lemma ShiftScript<T>(x: T, e: T, y: T)
    requires x != e && e != y && x != y
    ensures Script([x, e], [e, y]) == [Del(x), Equal(e), Ins(y)]
  {
    var o, n := [x, e], [e, y];
    assert PrefixLen(o, n) == 0 && SuffixLen(o, n) == 0;
    assert o[0..] == o && n[0..] == n && o[0..2] == o && n[0..2] == n && o[..0] == [] && o[2..] == [];
    assert LcsAt(o, n, 1, 0) == 1 + LcsAt(o, n, 2, 1);
    assert LcsAt(o, n, 1, 1) == 0;
    assert DiffFrom(o, n, 2, 1) == [Ins(y)] + DiffFrom(o, n, 2, 2);
    assert DiffFrom(o, n, 1, 0) == [Equal(e)] + DiffFrom(o, n, 2, 1);
    assert DiffFrom(o, n, 0, 0) == [Del(x)] + DiffFrom(o, n, 1, 0);
  }

  lemma ShiftMix<T>(x: T, e: T, y: T)
    ensures Mix([Del(x), Equal(e), Ins(y)], 0, 0, false, map[0 := true]) == [e]
  {
    var ops, accepted := [Del(x), Equal(e), Ins(y)], map[0 := true];
    assert Mix(ops, 2, 1, false, accepted) == [] + Mix(ops, 3, 1, true, accepted);
    assert Mix(ops, 1, 0, true, accepted) == [e] + Mix(ops, 2, 1, false, accepted);
  }

  lemma TwoLines(x: string, y: string)
    requires '\n' !in x && '\n' !in y
    ensures SplitLines(x + ['\n'] + y) == [x, y]
  {
    SplitCons(x, '\n', y);
    SplitWhole(y, '\n');
  }

  /** A change where that happens: "a\n" to "\nb", taking only the deletion of "a". */
  lemma AppliedLosesEmptyLine()
    ensures ApplyFrom(SplitLines("a\n"), HunksOf("a\n", "\nb"), map[0 := true], 0) == [""]
  {
    TwoLines("a", "");
    TwoLines("", "b");
    assert "a" + ['\n'] + "" == "a\n" && "" + ['\n'] + "b" == "\nb";
    LinesAppliedIsMix(["a", ""], ["", "b"], map[0 := true]);
    ShiftScript("a", "", "b");
    ShiftMix("a", "", "b");
  }

  /** Against a single line the distance differs from that against none by one. */
  lemma OneLineOff<T>(o: seq<T>, line: T)
    ensures Distance(o, [line]) != |o| && Distance([line], o) != |o|
  {
  }

  /** Proposing the partly applied text afresh costs exactly the accepted hunks on one side, and
      exactly the others on the other, if and only if it reads back as it was mixed. */
  lemma RediffAfterPartialAccept(oldText: string, newText: string, accepted: Accepted)
    ensures var hunks := HunksOf(oldText, newText);
            var mix := ApplyFrom(SplitLines(oldText), hunks, accepted, 0);
            var text := Applied(oldText, hunks, accepted);
            (TotalSize(HunksOf(oldText, text)) == SizeWhere(hunks, accepted, true) <==> mix != [""]) &&
            (TotalSize(HunksOf(text, newText)) == SizeWhere(hunks, accepted, false) <==> mix != [""])
  {
    var o, n, hunks := SplitLines(oldText), SplitLines(newText), HunksOf(oldText, newText);
    var text := Applied(oldText, hunks, accepted);
    AppliedReadsBack(oldText, newText, accepted);
    AppliedDistances(o, n, accepted);
    HunksAreMinimal(oldText, text);
    HunksAreMinimal(text, newText);
    OneLineOff(o, "");
    OneLineOff(n, "");
  }

  // ---- Length of the result ----

  function NetChange<T>(hunks: seq<Hunk<T>>, accepted: Accepted): int {
    if hunks == [] then 0
    else (if Chosen(accepted, hunks[0].id) then |hunks[0].newLines| - |hunks[0].oldLines| else 0)
         + NetChange(hunks[1..], accepted)
  }

  lemma {:induction false} CanonicalResultLength<T>(o: seq<T>, hunks: seq<Hunk<T>>, accepted: Accepted, from: nat,
                                                    id: int)
    requires CanonicalFrom(o, hunks, from, id) && (hunks == [] ==> from <= |o|)
    ensures |ApplyFrom(o, hunks, accepted, from)| == |o| - from + NetChange(hunks, accepted)
  {
    if hunks != [] {
      var h := hunks[0];
      var next := h.oldStart + |h.oldLines|;
      if hunks[1..] == [] {
        CanonicalResultLength(o, hunks[1..], accepted, next, id + 1);
      } else {
        CanonicalWeaken(o, hunks[1..], next + 1, next, id + 1);
        CanonicalResultLength(o, hunks[1..], accepted, next, id + 1);
      }
      var gap, rest := Gap(o, from, h.oldStart), ApplyFrom(o, hunks[1..], accepted, next);
      assert |gap| == h.oldStart - from;
      assert ApplyFrom(o, hunks, accepted, from) == gap + (Side(h, accepted) + rest);
    }
  }

  lemma ResultLength(oldText: string, newText: string, accepted: Accepted)
    ensures var o, hunks := SplitLines(oldText), HunksOf(oldText, newText);
            |ApplyFrom(o, hunks, accepted, 0)| == |o| + NetChange(hunks, accepted)
  {
    var o, n := SplitLines(oldText), SplitLines(newText);
    ScriptIsMinimal(o, n);
    assert Script(o, n)[0..] == Script(o, n) && o[0..] == o;
    GroupIsCanonicalFrom(o, Script(o, n), 0, 0, 0, HunksOf(oldText, newText));
    CanonicalResultLength(o, HunksOf(oldText, newText), accepted, 0, 0);
  }
}
