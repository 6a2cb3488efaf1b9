/** Edit scripts: what the LCS walk of sidecar/internal/diffreview/hunk.go produces before
    it is grouped into hunks. */
module EditScript {
  import opened LineDistance
  import opened Sequences

  datatype Op<T> = Equal(line: T) | Del(line: T) | Ins(line: T)

  function OldOf<T>(ops: seq<Op<T>>): seq<T> {
    if ops == [] then []
    else if ops[0].Ins? then OldOf(ops[1..])
    else [ops[0].line] + OldOf(ops[1..])
  }

  function NewOf<T>(ops: seq<Op<T>>): seq<T> {
    if ops == [] then []
    else if ops[0].Del? then NewOf(ops[1..])
    else [ops[0].line] + NewOf(ops[1..])
  }

  /** Number of deletions and insertions. */
  function Cost<T>(ops: seq<Op<T>>): nat {
    if ops == [] then 0 else (if ops[0].Equal? then 0 else 1) + Cost(ops[1..])
  }

  function Equals<T>(lines: seq<T>): seq<Op<T>> {
    seq(|lines|, i requires 0 <= i < |lines| => Equal(lines[i]))
  }

  lemma {:induction false} OpsConcat<T>(p: seq<Op<T>>, q: seq<Op<T>>)
    ensures OldOf(p + q) == OldOf(p) + OldOf(q)
    ensures NewOf(p + q) == NewOf(p) + NewOf(q)
    ensures Cost(p + q) == Cost(p) + Cost(q)
  {
    if p == [] {
      assert p + q == q;
    } else {
      var x := [p[0].line];
      assert (p + q)[1..] == p[1..] + q;
      OpsConcat(p[1..], q);
      Assoc(x, OldOf(p[1..]), OldOf(q));
      Assoc(x, NewOf(p[1..]), NewOf(q));
    }
  }

  lemma {:induction false} EqualsKeep<T>(lines: seq<T>)
    ensures OldOf(Equals(lines)) == lines == NewOf(Equals(lines)) && Cost(Equals(lines)) == 0
  {
    if lines != [] {
      EqualsKeep(lines[1..]);
      assert Equals(lines)[1..] == Equals(lines[1..]);
    }
  }

  /** No script is cheaper than the distance between the texts it relates. */
  lemma {:induction false} CostBoundsDistance<T>(ops: seq<Op<T>>)
    ensures Distance(OldOf(ops), NewOf(ops)) <= Cost(ops)
  {
    if ops != [] {
      var o, n := OldOf(ops), NewOf(ops);
      var o', n' := OldOf(ops[1..]), NewOf(ops[1..]);
      CostBoundsDistance(ops[1..]);
      match ops[0]
      case Equal(l) => DistancePrefix([l], o', n');
      case Del(l) => DistanceStep(o, n); assert o[1..] == o' && n == n';
      case Ins(l) => DistanceStep(o, n); assert n[1..] == n' && o == o';
    }
  }

  /** Cell (i, j) of the LCS table. */
  function LcsAt<T(==)>(o: seq<T>, n: seq<T>, i: nat, j: nat): nat
    requires i <= |o| && j <= |n|
    decreases |o| - i + |n| - j
  {
    if i == |o| || j == |n| then 0
    else if o[i] == n[j] then LcsAt(o, n, i + 1, j + 1) + 1
    else if LcsAt(o, n, i + 1, j) >= LcsAt(o, n, i, j + 1) then LcsAt(o, n, i + 1, j)
    else LcsAt(o, n, i, j + 1)
  }

  /** The table holds the true LCS lengths of all pairs of suffixes. */
  lemma {:induction false} LcsAtIsLcs<T>(o: seq<T>, n: seq<T>, i: nat, j: nat)
    requires i <= |o| && j <= |n|
    ensures LcsAt(o, n, i, j) == Lcs(o[i..], n[j..])
    decreases |o| - i + |n| - j
  {
    if i < |o| && j < |n| {
      assert o[i..][1..] == o[i + 1..] && n[j..][1..] == n[j + 1..];
      if o[i] == n[j] {
        LcsAtIsLcs(o, n, i + 1, j + 1);
      } else {
        LcsAtIsLcs(o, n, i + 1, j);
        LcsAtIsLcs(o, n, i, j + 1);
      }
    }
  }

  /** The walk down the LCS table from cell (i, j), then the leftovers of either side. */
  function DiffFrom<T(==)>(o: seq<T>, n: seq<T>, i: nat, j: nat): (ops: seq<Op<T>>)
    requires i <= |o| && j <= |n|
    decreases |o| - i + |n| - j
  {
    if i < |o| && j < |n| && o[i] == n[j] then [Equal(o[i])] + DiffFrom(o, n, i + 1, j + 1)
    else if i < |o| && (j < |n| ==> LcsAt(o, n, i + 1, j) >= LcsAt(o, n, i, j + 1)) then
      [Del(o[i])] + DiffFrom(o, n, i + 1, j)
    else if j < |n| then [Ins(n[j])] + DiffFrom(o, n, i, j + 1)
    else []
  }

  function Diff<T(==)>(o: seq<T>, n: seq<T>): seq<Op<T>> { DiffFrom(o, n, 0, 0) }

  lemma ScriptCons<T>(x: Op<T>, rest: seq<Op<T>>, ops: seq<Op<T>>)
    requires ops == [x] + rest
    ensures OldOf(ops) == if x.Ins? then OldOf(rest) else [x.line] + OldOf(rest)
    ensures NewOf(ops) == if x.Del? then NewOf(rest) else [x.line] + NewOf(rest)
    ensures Cost(ops) == (if x.Equal? then 0 else 1) + Cost(rest)
  {
    assert ops[1..] == rest;
  }

  lemma {:induction false} DiffFromIsMinimal<T>(o: seq<T>, n: seq<T>, i: nat, j: nat, ops: seq<Op<T>>)
    requires i <= |o| && j <= |n| && ops == DiffFrom(o, n, i, j)
    ensures Cost(ops) == |o| - i + |n| - j - 2 * LcsAt(o, n, i, j)
    decreases |o| - i + |n| - j
  {
    if i < |o| && j < |n| && o[i] == n[j] {
      var rest := DiffFrom(o, n, i + 1, j + 1);
      DiffFromIsMinimal(o, n, i + 1, j + 1, rest);
      ScriptCons(Equal(o[i]), rest, ops);
    } else if i < |o| && (j < |n| ==> LcsAt(o, n, i + 1, j) >= LcsAt(o, n, i, j + 1)) {
      var rest := DiffFrom(o, n, i + 1, j);
      DiffFromIsMinimal(o, n, i + 1, j, rest);
      ScriptCons(Del(o[i]), rest, ops);
    } else if j < |n| {
      var rest := DiffFrom(o, n, i, j + 1);
      DiffFromIsMinimal(o, n, i, j + 1, rest);
      ScriptCons(Ins(n[j]), rest, ops);
    }
  }

  lemma {:induction false} DiffFromRelates<T>(o: seq<T>, n: seq<T>, i: nat, j: nat, ops: seq<Op<T>>)
    requires i <= |o| && j <= |n| && ops == DiffFrom(o, n, i, j)
    ensures OldOf(ops) == o[i..] && NewOf(ops) == n[j..]
    decreases |o| - i + |n| - j
  {
    if ops != [] {
      var i', j' := if ops[0].Ins? then i else i + 1, if ops[0].Del? then j else j + 1;
      DiffFromRelates(o, n, i', j', DiffFrom(o, n, i', j'));
      ScriptCons(ops[0], DiffFrom(o, n, i', j'), ops);
    }
  }

  lemma DiffIsMinimal<T>(o: seq<T>, n: seq<T>)
    ensures OldOf(Diff(o, n)) == o && NewOf(Diff(o, n)) == n
    ensures Cost(Diff(o, n)) == Distance(o, n)
  {
    DiffFromRelates(o, n, 0, 0, Diff(o, n));
    DiffFromIsMinimal(o, n, 0, 0, Diff(o, n));
    LcsAtIsLcs(o, n, 0, 0);
    assert o[0..] == o && n[0..] == n;
  }

  /** Length of the common prefix, given that the first `i` lines agree. */
  function PrefixFrom<T(==)>(a: seq<T>, b: seq<T>, i: nat): (r: nat)
    requires i <= |a| && i <= |b|
    ensures i <= r <= |a| && r <= |b|
    ensures forall k :: i <= k < r ==> a[k] == b[k]
    ensures r < |a| && r < |b| ==> a[r] != b[r]
    decreases |a| - i
  {
    if i < |a| && i < |b| && a[i] == b[i] then PrefixFrom(a, b, i + 1) else i
  }

  function FromEnd<T>(a: seq<T>, k: nat): T
    requires k < |a|
  {
    a[|a| - 1 - k]
  }

  /** Length of the common suffix, given that the last `i` lines agree. */
  function SuffixFrom<T(==)>(a: seq<T>, b: seq<T>, i: nat): (r: nat)
    requires i <= |a| && i <= |b|
    ensures i <= r <= |a| && r <= |b|
    ensures forall k :: i <= k < r ==> FromEnd(a, k) == FromEnd(b, k)
    ensures r < |a| && r < |b| ==> FromEnd(a, r) != FromEnd(b, r)
    decreases |a| - i
  {
    if i < |a| && i < |b| && FromEnd(a, i) == FromEnd(b, i) then SuffixFrom(a, b, i + 1) else i
  }

  function PrefixLen<T(==)>(a: seq<T>, b: seq<T>): nat { PrefixFrom(a, b, 0) }

  function SuffixLen<T(==)>(a: seq<T>, b: seq<T>): nat { SuffixFrom(a, b, 0) }

  lemma PrefixAgrees<T>(a: seq<T>, b: seq<T>, r: nat)
    requires r == PrefixLen(a, b)
    ensures r <= |a| && r <= |b| && a[..r] == b[..r]
  {
  }

  lemma SuffixAgrees<T>(a: seq<T>, b: seq<T>, r: nat, i: int, j: int)
    requires r == SuffixLen(a, b) && i == |a| - r && j == |b| - r
    ensures 0 <= i <= |a| && 0 <= j <= |b| && a[i..] == b[j..]
  {
    assert forall k :: i <= k < |a| ==> a[k] == FromEnd(a, |a| - 1 - k);
    assert forall k :: j <= k < |b| ==> b[k] == FromEnd(b, |b| - 1 - k);
  }

  /** Common prefix, walk over the trimmed middles, common suffix. */
  function TrimmedScript<T(==)>(o: seq<T>, n: seq<T>, pre: nat, suf: nat): seq<Op<T>>
    requires pre + suf <= |o| && pre + suf <= |n|
  {
    Equals(o[..pre]) + Diff(o[pre..|o| - suf], n[pre..|n| - suf]) + Equals(o[|o| - suf..])
  }

  /** The script of the whole texts. */
  function Script<T(==)>(o: seq<T>, n: seq<T>): seq<Op<T>> {
    var pre := PrefixLen(o, n);
    TrimmedScript(o, n, pre, SuffixLen(o[pre..], n[pre..]))
  }

  lemma CutTwice<T>(s: seq<T>, i: nat, j: nat)
    requires i <= j <= |s|
    ensures s == s[..i] + (s[i..j] + s[j..])
    ensures s[i..][j - i..] == s[j..]
  {
  }

  /** A script between equal ends that is minimal in the middle is minimal throughout. */
  lemma PaddedIsMinimal<T>(p: seq<T>, ops: seq<Op<T>>, q: seq<T>)
    requires Cost(ops) == Distance(OldOf(ops), NewOf(ops))
    ensures var all := Equals(p) + ops + Equals(q);
            OldOf(all) == p + (OldOf(ops) + q) && NewOf(all) == p + (NewOf(ops) + q) &&
            Cost(all) == Distance(OldOf(all), NewOf(all))
  {
    EqualsKeep(p);
    EqualsKeep(q);
    OpsConcat(Equals(p), ops);
    OpsConcat(Equals(p) + ops, Equals(q));
    var o, n := OldOf(ops), NewOf(ops);
    DistanceSuffix(o, n, q);
    DistancePrefix(p, o + q, n + q);
    Assoc(p, o, q);
    Assoc(p, n, q);
  }

  lemma TrimSplits<T>(o: seq<T>, n: seq<T>, pre: nat, suf: nat)
    requires pre <= |o| && pre <= |n| && o[..pre] == n[..pre]
    requires suf <= |o| - pre && suf <= |n| - pre
    requires o[pre..][|o| - pre - suf..] == n[pre..][|n| - pre - suf..]
    ensures o == o[..pre] + (o[pre..|o| - suf] + o[|o| - suf..])
    ensures n == o[..pre] + (n[pre..|n| - suf] + o[|o| - suf..])
  {
    CutTwice(o, pre, |o| - suf);
    CutTwice(n, pre, |n| - suf);
    assert |n| - suf - pre == |n| - pre - suf && |o| - suf - pre == |o| - pre - suf;
    assert n[|n| - suf..] == o[|o| - suf..];
  }

  /** Trimming costs nothing: the script still turns `o` into `n` with the fewest edits. */
  lemma TrimmedIsMinimal<T>(o: seq<T>, n: seq<T>, pre: nat, suf: nat)
    requires pre + suf <= |o| && pre + suf <= |n| && o[..pre] == n[..pre]
    requires o[pre..][|o| - pre - suf..] == n[pre..][|n| - pre - suf..]
    ensures var ops := TrimmedScript(o, n, pre, suf);
            OldOf(ops) == o && NewOf(ops) == n && Cost(ops) == Distance(o, n)
  {
    TrimSplits(o, n, pre, suf);
    var oMid, nMid := o[pre..|o| - suf], n[pre..|n| - suf];
    DiffIsMinimal(oMid, nMid);
    PaddedIsMinimal(o[..pre], Diff(oMid, nMid), o[|o| - suf..]);
  }

  lemma TrimAgrees<T>(o: seq<T>, n: seq<T>, pre: nat, suf: nat)
    requires pre == PrefixLen(o, n) && suf == SuffixLen(o[pre..], n[pre..])
    ensures pre + suf <= |o| && pre + suf <= |n| && o[..pre] == n[..pre]
    ensures o[pre..][|o| - pre - suf..] == n[pre..][|n| - pre - suf..]
  {
    PrefixAgrees(o, n, pre);
    SuffixAgrees(o[pre..], n[pre..], suf, |o| - pre - suf, |n| - pre - suf);
  }

  lemma ScriptIsMinimal<T>(o: seq<T>, n: seq<T>)
    ensures OldOf(Script(o, n)) == o && NewOf(Script(o, n)) == n
    ensures Cost(Script(o, n)) == Distance(o, n)
  {
    var pre := PrefixLen(o, n);
    var suf := SuffixLen(o[pre..], n[pre..]);
    TrimAgrees(o, n, pre, suf);
    TrimmedIsMinimal(o, n, pre, suf);
  }
}
