/** Longest common subsequences and the insert/delete distance they induce: the yardstick
    the line diff of sidecar/internal/diffreview/hunk.go is measured against. */
module LineDistance {
  /** `s` can be obtained from `t` by deleting lines. */
  ghost predicate Subseq<T>(s: seq<T>, t: seq<T>) {
    s == [] ||
    (t != [] && ((s[0] == t[0] && Subseq(s[1..], t[1..])) || Subseq(s, t[1..])))
  }

  /** Length of a longest common subsequence: see LcsAttained and LcsMaximal. */
  function Lcs<T(==)>(a: seq<T>, b: seq<T>): (r: nat)
    ensures r <= |a| && r <= |b|
    decreases |a| + |b|
  {
    if a == [] || b == [] then 0
    else if a[0] == b[0] then 1 + Lcs(a[1..], b[1..])
    else
      var x, y := Lcs(a[1..], b), Lcs(a, b[1..]);
      if x >= y then x else y
  }

  /** Fewest single-line deletions and insertions that turn `a` into `b`. */
  function Distance<T(==)>(a: seq<T>, b: seq<T>): nat {
    |a| + |b| - 2 * Lcs(a, b)
  }

  // ---- Lcs is the true optimum ----

  lemma {:induction false} SubseqTail<T>(s: seq<T>, t: seq<T>)
    requires s != [] && Subseq(s, t)
    ensures Subseq(s[1..], t)
    decreases |t|
  {
    if s[0] == t[0] && Subseq(s[1..], t[1..]) {
    } else {
      SubseqTail(s, t[1..]);
    }
  }

  lemma {:induction false} SubseqTails<T>(s: seq<T>, t: seq<T>)
    requires s != [] && Subseq(s, t)
    ensures t != [] && Subseq(s[1..], t[1..])
  {
    if s[0] == t[0] && Subseq(s[1..], t[1..]) {
    } else {
      SubseqTail(s, t[1..]);
    }
  }

  lemma {:induction false} LcsMaximal<T>(s: seq<T>, a: seq<T>, b: seq<T>)
    requires Subseq(s, a) && Subseq(s, b)
    ensures |s| <= Lcs(a, b)
    decreases |a| + |b|
  {
    if s == [] {
    } else if a[0] == b[0] {
      SubseqTails(s, a);
      SubseqTails(s, b);
      LcsMaximal(s[1..], a[1..], b[1..]);
    } else if s[0] != a[0] {
      LcsMaximal(s, a[1..], b);
    } else {
      LcsMaximal(s, a, b[1..]);
    }
  }

  lemma {:induction false} LcsAttained<T>(a: seq<T>, b: seq<T>) returns (s: seq<T>)
    ensures Subseq(s, a) && Subseq(s, b)
    ensures |s| == Lcs(a, b)
    decreases |a| + |b|
  {
    if a == [] || b == [] {
      s := [];
    } else if a[0] == b[0] {
      var s' := LcsAttained(a[1..], b[1..]);
      s := [a[0]] + s';
      assert s[1..] == s';
    } else if Lcs(a[1..], b) >= Lcs(a, b[1..]) {
      s := LcsAttained(a[1..], b);
    } else {
      s := LcsAttained(a, b[1..]);
    }
  }

  // ---- How Lcs reacts to one more line, at the front and at the back ----

  lemma LcsMonotone<T>(a: seq<T>, b: seq<T>)
    ensures a != [] ==> Lcs(a[1..], b) <= Lcs(a, b)
    ensures b != [] ==> Lcs(a, b[1..]) <= Lcs(a, b)
  {
    if a != [] {
      var s := LcsAttained(a[1..], b);
      LcsMaximal(s, a, b);
    }
    if b != [] {
      var s := LcsAttained(a, b[1..]);
      LcsMaximal(s, a, b);
    }
  }

  lemma {:induction false} LcsSnoc<T>(a: seq<T>, b: seq<T>, x: T)
    ensures Lcs(a + [x], b + [x]) == Lcs(a, b) + 1
    decreases |a| + |b|
  {
    var ax, bx := a + [x], b + [x];
    if a != [] {
      assert ax[1..] == a[1..] + [x];
    }
    if b != [] {
      assert bx[1..] == b[1..] + [x];
    }
    if a == [] && b == [] {
      assert Lcs(ax[1..], bx[1..]) == 0;
    } else if a == [] {
      assert Lcs(ax[1..], bx[1..]) == 0 && Lcs(ax[1..], bx) == 0;
      LcsSnoc(a, b[1..], x);
    } else if b == [] {
      assert Lcs(ax[1..], bx[1..]) == 0 && Lcs(ax, bx[1..]) == 0;
      LcsSnoc(a[1..], b, x);
    } else if a[0] == b[0] {
      LcsSnoc(a[1..], b[1..], x);
    } else {
      LcsSnoc(a[1..], b, x);
      LcsSnoc(a, b[1..], x);
    }
  }

  lemma {:induction false} DistancePrefix<T>(p: seq<T>, a: seq<T>, b: seq<T>)
    ensures Distance(p + a, p + b) == Distance(a, b)
  {
    if p == [] {
      assert p + a == a && p + b == b;
    } else {
      assert (p + a)[1..] == p[1..] + a && (p + b)[1..] == p[1..] + b;
      DistancePrefix(p[1..], a, b);
    }
  }

  lemma {:induction false} DistanceSuffix<T>(a: seq<T>, b: seq<T>, q: seq<T>)
    ensures Distance(a + q, b + q) == Distance(a, b)
    decreases |q|
  {
    if q == [] {
      assert a + q == a && b + q == b;
    } else {
      LcsSnoc(a, b, q[0]);
      DistanceSuffix(a + [q[0]], b + [q[0]], q[1..]);
      assert a + [q[0]] + q[1..] == a + q && b + [q[0]] + q[1..] == b + q;
    }
  }

  // ---- Distance as a metric ----

  lemma DistanceStep<T>(a: seq<T>, b: seq<T>)
    ensures a != [] ==> Distance(a, b) <= 1 + Distance(a[1..], b)
    ensures b != [] ==> Distance(a, b) <= 1 + Distance(a, b[1..])
  {
    LcsMonotone(a, b);
  }

  lemma {:induction false} DistanceZero<T>(a: seq<T>, b: seq<T>)
    ensures Distance(a, b) == 0 <==> a == b
    decreases |a|
  {
    if a == [] || b == [] {
    } else if a[0] == b[0] {
      DistanceZero(a[1..], b[1..]);
      assert a == [a[0]] + a[1..] && b == [b[0]] + b[1..];
    }
  }

  /** Some shortest edit starts by dropping a line of `a`, by adding a line of `b`, or by keeping
      the line both start with. */
  lemma DistanceCases<T>(a: seq<T>, b: seq<T>)
    ensures || (a == [] && b == [])
            || (a != [] && Distance(a, b) == 1 + Distance(a[1..], b))
            || (b != [] && Distance(a, b) == 1 + Distance(a, b[1..]))
            || (a != [] && b != [] && a[0] == b[0] && Distance(a, b) == Distance(a[1..], b[1..]))
  {
  }

  lemma DistanceDrop<T>(a: seq<T>, b: seq<T>)
    ensures a != [] ==> Distance(a[1..], b) <= 1 + Distance(a, b)
    ensures b != [] ==> Distance(a, b[1..]) <= 1 + Distance(a, b)
  {
    var s := LcsAttained(a, b);
    if s != [] {
      SubseqTails(s, a);
      SubseqTails(s, b);
      SubseqTail(s, a);
      SubseqTail(s, b);
      LcsMaximal(s[1..], a[1..], b);
      LcsMaximal(s[1..], a, b[1..]);
    }
  }

  lemma {:induction false} DistanceTriangle<T>(a: seq<T>, b: seq<T>, c: seq<T>)
    ensures Distance(a, c) <= Distance(a, b) + Distance(b, c)
    decreases |a| + |b| + |c|
  {
    DistanceStep(a, c);
    DistanceCases(a, b);
    DistanceCases(b, c);
    if a != [] && Distance(a, b) == 1 + Distance(a[1..], b) {
      DistanceTriangle(a[1..], b, c);
    } else if c != [] && Distance(b, c) == 1 + Distance(b, c[1..]) {
      DistanceTriangle(a, b, c[1..]);
    } else if b != [] {
      DistanceDrop(a, b);
      DistanceDrop(b, c);
      DistanceTriangle(a, b[1..], c);
      if a != [] && c != [] && a[0] == b[0] == c[0] {
        DistanceTriangle(a[1..], b[1..], c[1..]);
      }
    }
  }

  lemma {:induction false} SubseqConcat<T>(s: seq<T>, a: seq<T>, t: seq<T>, b: seq<T>)
    requires Subseq(s, a) && Subseq(t, b)
    ensures Subseq(s + t, a + b)
    decreases |a|
  {
    if a == [] {
      assert s + t == t && a + b == b;
    } else {
      assert (a + b)[1..] == a[1..] + b;
      if s == [] {
        SubseqConcat(s, a[1..], t, b);
      } else if s[0] == a[0] && Subseq(s[1..], a[1..]) {
        assert (s + t)[1..] == s[1..] + t;
        SubseqConcat(s[1..], a[1..], t, b);
      } else {
        SubseqConcat(s, a[1..], t, b);
      }
    }
  }

  /** Editing two halves separately is one way of editing the whole. */
  lemma DistanceConcat<T>(a: seq<T>, b: seq<T>, a': seq<T>, b': seq<T>)
    ensures Distance(a + a', b + b') <= Distance(a, b) + Distance(a', b')
  {
    var s := LcsAttained(a, b);
    var t := LcsAttained(a', b');
    SubseqConcat(s, a, t, a');
    SubseqConcat(s, b, t, b');
    LcsMaximal(s + t, a + a', b + b');
  }

  lemma {:induction false} SingletonSubseq<T>(x: T, t: seq<T>)
    requires x in t
    ensures Subseq([x], t)
  {
    if t[0] == x {
      assert [x][1..] == [];
    } else {
      assert x in t[1..];
      SingletonSubseq(x, t[1..]);
    }
  }

  lemma SharedLineShortens<T>(x: T, a: seq<T>, b: seq<T>)
    requires x in a && x in b
    ensures Distance(a, b) < |a| + |b|
  {
    SingletonSubseq(x, a);
    SingletonSubseq(x, b);
    LcsMaximal([x], a, b);
  }
}
