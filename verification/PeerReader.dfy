/** The read loop of Run in sidecar/internal/mcp/peer.go. */
module PeerReader {
  import opened Lines
  import opened Framing
  import opened ServerReader
  import opened Sequences

  /** Largest frame, its newline included: 32 << 20. */
  const MAX_MESSAGE: nat := 33554432

  const SPACE: Byte := 32

  /** `trim` leaves nothing of the line. */
  predicate Blank(line: seq<Byte>) {
    forall k :: 0 <= k < |line| ==> line[k] == NL || line[k] == CR || line[k] == SPACE
  }

  /** What ReadBytes returns: the bytes up to and including the newline, or all there are. */
  function RawLine(stream: seq<Byte>): (raw: seq<Byte>)
    ensures |raw| <= |stream|
  {
    var nl := IndexOf(stream, NL);
    if nl < |stream| then stream[..nl + 1] else stream
  }

  /** The frames handed to route before the peer's stream ends. */
  function Routed(stream: seq<Byte>): seq<Frame> {
    var raw := RawLine(stream);
    if |raw| > MAX_MESSAGE then []
    else
      (if Blank(raw) then [] else [raw]) + (if NL in raw then Routed(stream[|raw|..]) else [])
  }

  predicate AllFit(stream: seq<Byte>) {
    var raw := RawLine(stream);
    |raw| <= MAX_MESSAGE && (NL in raw ==> AllFit(stream[|raw|..]))
  }

  method TrimmedLength(line: seq<Byte>) returns (n: nat)
    ensures n <= |line| && (n == 0 <==> Blank(line))
    ensures n == 0 <==> forall k :: 0 <= k < |line| ==> line[k] == 10 || line[k] == 13 || line[k] == 32
  {
    n := |line|;
    while n > 0 && (line[n - 1] == NL || line[n - 1] == CR || line[n - 1] == SPACE)
      invariant n <= |line|
      invariant forall k :: n <= k < |line| ==> line[k] == NL || line[k] == CR || line[k] == SPACE
    {
      n := n - 1;
    }
  }

  /** `failed` says whether the loop ends with failPending. */
  method Run(stream: seq<Byte>) returns (routed: seq<Frame>, failed: bool)
    ensures routed == Routed(stream)
    ensures failed <==> AllFit(stream)
  {
    routed := [];
    var rest := stream;
    while true
      invariant routed + Routed(rest) == Routed(stream)
      invariant AllFit(rest) <==> AllFit(stream)
      decreases |rest|
    {
      var raw := RawLine(rest);
      var eof := IndexOf(rest, NL) == |rest|;
      assert eof ==> rest[..|rest|] == rest;
      assert eof <==> NL !in raw;
      if |raw| > MAX_MESSAGE {
        return routed, false;
      }
      var n := TrimmedLength(raw);
      Shift(routed, raw, if eof then [] else Routed(rest[|raw|..]));
      if n > 0 {
        routed := routed + [raw];
      }
      if eof {
        return routed, true;
      }
      rest := rest[|raw|..];
    }
  }

  ghost predicate Fits(payloads: seq<Frame>) {
    forall k :: 0 <= k < |payloads| ==> |payloads[k]| + 1 <= 33554432
  }

  ghost predicate NonBlank(payloads: seq<Frame>) {
    forall k :: 0 <= k < |payloads| ==> NL !in payloads[k] && !Blank(payloads[k])
  }

  function Framed(payloads: seq<Frame>): seq<Frame> {
    seq(|payloads|, k requires 0 <= k < |payloads| => payloads[k] + [NL])
  }

  lemma RunHead(p: Frame, rest: seq<Byte>)
    requires NL !in p
    ensures Routed(p + [NL] + rest)
            == if |p| + 1 > MAX_MESSAGE then [] else (if Blank(p) then [] else [p + [NL]]) + Routed(rest)
    ensures AllFit(p + [NL] + rest) <==> |p| + 1 <= MAX_MESSAGE && AllFit(rest)
  {
    var stream := p + [NL] + rest;
    IndexOfFirst(p, NL, rest);
    assert stream[..|p| + 1] == p + [NL] && stream[|p| + 1..] == rest;
    assert (p + [NL])[|p|] == NL;
    assert forall k :: 0 <= k < |p| ==> (p + [NL])[k] == p[k];
  }

  lemma RunTail(tail: seq<Byte>)
    requires NL !in tail
    ensures Routed(tail) == if |tail| > MAX_MESSAGE || Blank(tail) then [] else [tail]
    ensures AllFit(tail) <==> |tail| <= MAX_MESSAGE
  {
    IndexOfNone(tail);
  }

  lemma {:induction false} IndexOfNone(tail: seq<Byte>)
    requires NL !in tail
    ensures IndexOf(tail, NL) == |tail|
  {
    if tail != [] {
      assert tail[0] in tail;
      IndexOfNone(tail[1..]);
    }
  }

  lemma Cons(payloads: seq<Frame>, tail: seq<Byte>, p: Frame, ps: seq<Frame>)
    requires payloads == [p] + ps
    ensures Frames(payloads) + tail == p + [NL] + (Frames(ps) + tail)
    ensures Framed(payloads) == [p + [NL]] + Framed(ps)
  {
    assert payloads[1..] == ps;
  }

  lemma FitsCons(payloads: seq<Frame>, p: Frame, ps: seq<Frame>)
    requires payloads == [p] + ps
    ensures Fits(payloads) <==> |p| + 1 <= MAX_MESSAGE && Fits(ps)
    ensures NonBlank(payloads) <==> NL !in p && !Blank(p) && NonBlank(ps)
  {
    assert payloads[0] == p && forall k :: 0 <= k < |ps| ==> ps[k] == payloads[k + 1];
  }

  /** The end of the stream fails the pending calls exactly when no frame was over the limit. */
  lemma {:induction false} FailsPendingIff(payloads: seq<Frame>, tail: seq<Byte>)
    requires NonBlank(payloads) && NL !in tail
    ensures AllFit(Frames(payloads) + tail) <==> Fits(payloads) && |tail| <= MAX_MESSAGE
  {
    if payloads == [] {
      assert [] + tail == tail;
      RunTail(tail);
    } else {
      var p, ps := payloads[0], payloads[1..];
      assert payloads == [p] + ps;
      Cons(payloads, tail, p, ps);
      FitsCons(payloads, p, ps);
      RunHead(p, Frames(ps) + tail);
      FailsPendingIff(ps, tail);
    }
  }

  // ---- Frames some of whose writes failed ----

  /** The bytes after the last whole frame. */
  function Leftover(residue: seq<Byte>, attempts: seq<Attempt>): seq<Byte>
    requires AllValid(attempts)
    decreases |attempts|
  {
    if attempts == [] then residue
    else if attempts[0].Complete() then Leftover([], attempts[1..])
    else Leftover(residue + attempts[0].Bytes(), attempts[1..])
  }

  /** What the peer should route: the frames whose writes succeeded, and what comes after them. */
  function Expected(residue: seq<Byte>, attempts: seq<Attempt>): seq<Frame>
    requires AllValid(attempts)
  {
    Framed(Reported(attempts)) + LastFrame(Leftover(residue, attempts))
  }

  function LastFrame(leftover: seq<Byte>): seq<Frame> {
    if Blank(leftover) then [] else [leftover]
  }

  predicate Routable(payload: Frame) {
    |payload| + 1 <= 33554432 && !Blank(payload)
  }

  ghost predicate AllRoutable(payloads: seq<Frame>) {
    forall k :: 0 <= k < |payloads| ==> Routable(payloads[k])
  }

  predicate LeftoverFits(leftover: seq<Byte>) {
    |leftover| <= MAX_MESSAGE || Blank(leftover)
  }

  lemma ExpectedHead(residue: seq<Byte>, attempts: seq<Attempt>)
    requires AllValid(attempts) && attempts != []
    ensures var a, rest := attempts[0], attempts[1..];
            Expected(residue, attempts)
            == if a.Complete() then [a.payload + [NL]] + Expected([], rest) else Expected(residue + a.Bytes(), rest)
  {
    var a, rest := attempts[0], attempts[1..];
    if a.Complete() {
      Cons(Reported(attempts), [], a.payload, Reported(rest));
      Assoc([a.payload + [NL]], Framed(Reported(rest)), LastFrame(Leftover([], rest)));
    } else {
      assert Reported(attempts) == Reported(rest);
    }
  }

  lemma {:induction false} NoMoreThanExpected(residue: seq<Byte>, attempts: seq<Attempt>)
    requires AllValid(attempts) && NL !in residue
    ensures |Routed(residue + Wire(attempts))| <= |Expected(residue, attempts)|
    decreases |attempts|
  {
    if attempts == [] {
      assert residue + [] == residue;
      RunTail(residue);
    } else {
      var a, rest := attempts[0], attempts[1..];
      OnWire(residue, attempts);
      ExpectedHead(residue, attempts);
      if a.Complete() {
        RunHead(residue + a.payload, Wire(rest));
        NoMoreThanExpected([], rest);
        assert [] + Wire(rest) == Wire(rest);
      } else {
        NoMoreThanExpected(residue + a.Bytes(), rest);
      }
    }
  }

  /** The first whole frame on the wire, with `tail` behind it. */
  lemma FirstFrame(residue: seq<Byte>, p: Frame, tail: seq<Byte>, fs: seq<Frame>)
    requires NL !in p && NL !in residue && |Routed(tail)| <= |fs|
    ensures Routed((residue + p) + [NL] + tail) == [p + [NL]] + fs <==>
            residue == [] && Routable(p) && Routed(tail) == fs
  {
    var line := residue + p + [NL];
    RunHead(residue + p, tail);
    assert residue == [] ==> residue + p == p;
    assert |line| == |residue| + |p + [NL]|;
    if |residue + p| + 1 <= MAX_MESSAGE {
      HeadMatches(p + [NL], fs, if Blank(residue + p) then [] else [line], Routed(tail));
    }
  }

  lemma HeadRouted(residue: seq<Byte>, attempts: seq<Attempt>)
    requires AllValid(attempts) && NL !in residue && attempts != [] && attempts[0].Complete()
    ensures var p, rest := attempts[0].payload, attempts[1..];
            Routed(residue + Wire(attempts)) == Expected(residue, attempts) <==>
            residue == [] && Routable(p) && Routed(Wire(rest)) == Expected([], rest)
  {
    var rest := attempts[1..];
    NoMoreThanExpected([], rest);
    assert [] + Wire(rest) == Wire(rest);
    OnWire(residue, attempts);
    ExpectedHead(residue, attempts);
    FirstFrame(residue, attempts[0].payload, Wire(rest), Expected([], rest));
  }

  lemma RoutableCons(payloads: seq<Frame>, p: Frame, ps: seq<Frame>)
    requires payloads == [p] + ps
    ensures AllRoutable(payloads) <==> Routable(p) && AllRoutable(ps)
  {
    assert payloads[0] == p && forall k :: 0 <= k < |ps| ==> ps[k] == payloads[k + 1];
  }

  ghost predicate Clean(residue: seq<Byte>, attempts: seq<Attempt>) {
    if residue == [] then NoTornFrame(attempts) && AllRoutable(Reported(attempts)) else NoneComplete(attempts)
  }

  lemma CleanStep(residue: seq<Byte>, attempts: seq<Attempt>)
    requires AllValid(attempts) && attempts != []
    ensures var a, rest := attempts[0], attempts[1..];
            Clean(residue, attempts) <==>
            if a.Complete() then residue == [] && Routable(a.payload) && Clean([], rest)
            else Clean(residue + a.Bytes(), rest)
  {
    var a, rest := attempts[0], attempts[1..];
    TornTail(attempts);
    if a.Complete() {
      RoutableCons(Reported(attempts), a.payload, Reported(rest));
    } else {
      assert Reported(attempts) == Reported(rest);
      if NoneComplete(rest) {
        NoneReported(rest);
      }
    }
  }

  lemma {:induction false} RoutesFrom(residue: seq<Byte>, attempts: seq<Attempt>)
    requires AllValid(attempts) && NL !in residue
    ensures Routed(residue + Wire(attempts)) == Expected(residue, attempts) <==>
            LeftoverFits(Leftover(residue, attempts)) && Clean(residue, attempts)
    decreases |attempts|
  {
    if attempts == [] {
      assert residue + [] == residue && Framed([]) + LastFrame(residue) == LastFrame(residue);
      RunTail(residue);
    } else {
      var a, rest := attempts[0], attempts[1..];
      CleanStep(residue, attempts);
      if a.Complete() {
        HeadRouted(residue, attempts);
        RoutesFrom([], rest);
        assert [] + Wire(rest) == Wire(rest);
      } else {
        OnWire(residue, attempts);
        ExpectedHead(residue, attempts);
        RoutesFrom(residue + a.Bytes(), rest);
      }
    }
  }

  /** The peer routes exactly the frames whose writes the other side saw succeed, and then whatever
      it left behind, if and only if no write that failed part way came before one that succeeded,
      and everything routed is within the limit and not blank. */
  lemma PeerRecovers(attempts: seq<Attempt>)
    requires AllValid(attempts)
    ensures Routed(Wire(attempts)) == Framed(Reported(attempts)) + LastFrame(Leftover([], attempts)) <==>
            NoTornFrame(attempts) && AllRoutable(Reported(attempts)) && LeftoverFits(Leftover([], attempts))
  {
    RoutesFrom([], attempts);
    assert [] + Wire(attempts) == Wire(attempts);
  }

  lemma OneRouted(p: Frame, none: seq<Byte>)
    requires NL !in p && !Blank(p) && |p| < MAX_MESSAGE && none == []
    ensures Routed(p + [NL] + none) == [p + [NL]]
  {
    RunHead(p, none);
    RunTail(none);
  }

  /** A write that took one byte of "A", then a whole "B": the peer routes "AB". */
  lemma TornFrameSpoilsNext(p: Frame)
    requires p == [65, 66]
    ensures AllValid(TORN) && Reported(TORN) == [[66]] && Routed(Wire(TORN)) == [p + [NL]]
  {
    TornWire();
    assert p[0] == 65;
    OneRouted(p, []);
  }
}
