/** Newline framing of the JSON-RPC streams: the incremental reader and the partial-write loop
    of app/Vmux/Sidecar/SidecarClient.swift, the line reader of sidecar/internal/rpc/server.go. */
module Framing {
  import opened Lines

  type Byte = b: int | 0 <= b < 256

  const NL: Byte := 10
  const CR: Byte := 13

  type Frame = seq<Byte>

  function NonEmpty<T>(pieces: seq<seq<T>>): (r: seq<seq<T>>)
    ensures forall k :: 0 <= k < |r| ==> r[k] != []
  {
    if pieces == [] then []
    else if pieces[0] == [] then NonEmpty(pieces[1..])
    else [pieces[0]] + NonEmpty(pieces[1..])
  }

  lemma {:induction false} NonEmptyConcat<T>(a: seq<seq<T>>, b: seq<seq<T>>)
    ensures NonEmpty(a + b) == NonEmpty(a) + NonEmpty(b)
  {
    if a == [] {
      assert a + b == b;
    } else {
      assert (a + b)[1..] == a[1..] + b;
      NonEmptyConcat(a[1..], b);
    }
  }

  /** The lines a stream has completed: the non-empty pieces before its last newline. */
  function LinesOf<T(==)>(stream: seq<T>, nl: T): seq<seq<T>> {
    var pieces := Split(stream, nl);
    NonEmpty(pieces[..|pieces| - 1])
  }

  /** What follows the last newline. */
  function Unfinished<T(==)>(stream: seq<T>, nl: T): seq<T> {
    var pieces := Split(stream, nl);
    pieces[|pieces| - 1]
  }

  lemma SplitOn<T>(a: seq<T>, b: seq<T>, nl: T)
    ensures var x := Split(a, nl); Split(a + b, nl) == x[..|x| - 1] + Split(Unfinished(a, nl) + b, nl)
  {
    SplitIsFree(a, nl);
    SplitConcat(a, b, nl);
    SplitGrowFirst(Unfinished(a, nl), b, nl);
    MergeLast(Split(a, nl), Split(b, nl));
  }

  lemma NonEmptyFront<T>(x: seq<seq<T>>, z: seq<seq<T>>)
    requires z != []
    ensures NonEmpty((x + z)[..|x + z| - 1]) == NonEmpty(x) + NonEmpty(z[..|z| - 1])
    ensures (x + z)[|x + z| - 1] == z[|z| - 1]
  {
    assert (x + z)[..|x + z| - 1] == x + z[..|z| - 1];
    NonEmptyConcat(x, z[..|z| - 1]);
  }

  /** Reading on: only the unfinished part of what was read before matters. */
  lemma ReadOn<T>(a: seq<T>, b: seq<T>, nl: T)
    ensures LinesOf(a + b, nl) == LinesOf(a, nl) + LinesOf(Unfinished(a, nl) + b, nl)
    ensures Unfinished(a + b, nl) == Unfinished(Unfinished(a, nl) + b, nl)
  {
    var x := Split(a, nl);
    SplitOn(a, b, nl);
    NonEmptyFront(x[..|x| - 1], Split(Unfinished(a, nl) + b, nl));
  }

  lemma OneLine<T>(line: seq<T>, rest: seq<T>, nl: T)
    requires nl !in line
    ensures LinesOf(line + [nl] + rest, nl) == (if line == [] then [] else [line]) + LinesOf(rest, nl)
    ensures Unfinished(line + [nl] + rest, nl) == Unfinished(rest, nl)
  {
    SplitCons(line, nl, rest);
    var z := Split(rest, nl);
    assert ([line] + z)[..|z|] == [line] + z[..|z| - 1];
    assert ([line] + z[..|z| - 1])[1..] == z[..|z| - 1];
  }

  lemma NoLine<T>(rest: seq<T>, nl: T)
    requires nl !in rest
    ensures LinesOf(rest, nl) == [] && Unfinished(rest, nl) == rest
  {
    SplitWhole(rest, nl);
  }

  // ---- SidecarClient.drainSocket ----

  class LineReader {
    var inbound: seq<Byte>

    constructor ()
      ensures inbound == []
    {
      inbound := [];
    }

    /** One successful read: append the chunk, hand on every complete non-empty line. */
    method Drain(chunk: seq<Byte>) returns (routed: seq<Frame>)
      modifies this
      ensures routed == LinesOf(old(inbound) + chunk, 10)
      ensures inbound == Unfinished(old(inbound) + chunk, 10)
    {
      inbound := inbound + chunk;
      routed := [];
      ghost var stream := inbound;
      var nl := IndexOf(inbound, NL);
      while nl < |inbound|
        invariant nl == IndexOf(inbound, NL)
        invariant routed + LinesOf(inbound, NL) == LinesOf(stream, NL)
        invariant Unfinished(inbound, NL) == Unfinished(stream, NL)
        decreases |inbound|
      {
        var line := inbound[..nl];
        DrainStep(inbound, nl, routed);
        inbound := inbound[nl + 1..];
        if line != [] {
          routed := routed + [line];
        }
        nl := IndexOf(inbound, NL);
      }
      assert inbound[..nl] == inbound;
      NoLine(inbound, NL);
    }
  }

  lemma DrainStep(inbound: seq<Byte>, nl: nat, routed: seq<Frame>)
    requires nl == IndexOf(inbound, NL) < |inbound|
    ensures var line := inbound[..nl];
            routed + LinesOf(inbound, NL)
            == (if line == [] then routed else routed + [line]) + LinesOf(inbound[nl + 1..], NL)
    ensures Unfinished(inbound, NL) == Unfinished(inbound[nl + 1..], NL)
  {
    var line, rest := inbound[..nl], inbound[nl + 1..];
    CutAt([], inbound, nl);
    OneLine(line, rest, NL);
    Shift(routed, line, LinesOf(rest, NL));
  }

  lemma Shift(a: seq<Frame>, line: Frame, b: seq<Frame>)
    ensures a + ([line] + b) == (a + [line]) + b && a + ([] + b) == a + b
  {
  }

  function Concat(chunks: seq<seq<Byte>>): seq<Byte> {
    if chunks == [] then [] else chunks[0] + Concat(chunks[1..])
  }

  /** The lines routed over a sequence of reads, and the bytes left over. */
  function DrainAll(inbound: seq<Byte>, chunks: seq<seq<Byte>>): (seq<Frame>, seq<Byte>)
    decreases |chunks|
  {
    if chunks == [] then ([], inbound)
    else
      var stream := inbound + chunks[0];
      var (lines, rest) := DrainAll(Unfinished(stream, NL), chunks[1..]);
      (LinesOf(stream, NL) + lines, rest)
  }

  /** However the stream is cut into reads, the routed lines are those of the whole stream. */
  lemma {:induction false} ChunkingIsIrrelevant(inbound: seq<Byte>, chunks: seq<seq<Byte>>)
    requires NL !in inbound
    ensures DrainAll(inbound, chunks)
            == (LinesOf(inbound + Concat(chunks), NL), Unfinished(inbound + Concat(chunks), NL))
    decreases |chunks|
  {
    if chunks == [] {
      assert inbound + [] == inbound;
      NoLine(inbound, NL);
    } else {
      var stream, more := inbound + chunks[0], Concat(chunks[1..]);
      assert inbound + Concat(chunks) == stream + more;
      SplitIsFree(stream, NL);
      ChunkingIsIrrelevant(Unfinished(stream, NL), chunks[1..]);
      ReadOn(stream, more, NL);
    }
  }

  // ---- SidecarClient.writeLine ----

  /** Write `data` and a newline in as many write calls as it takes. `kernel` gives the result
      of each call; a call takes at most what it is offered. `sent` is what got on the wire. */
  method WriteLine(data: Frame, kernel: nat -> int) returns (ok: bool, sent: seq<Byte>, calls: nat)
    ensures sent <= data + [10]
    ensures ok <==> sent == data + [10]
    ensures ok <==> forall k :: 0 <= k < calls ==> kernel(k) > 0
    ensures forall k :: 0 <= k < calls - 1 ==> kernel(k) > 0
  {
    var framed := data + [NL];
    var off := 0;
    sent, calls := [], 0;
    while off < |framed|
      invariant off <= |framed| && sent == framed[..off]
      invariant forall k :: 0 <= k < calls ==> kernel(k) > 0
    {
      var w := kernel(calls);
      calls := calls + 1;
      if w <= 0 {
        return false, sent, calls;
      }
      w := if w < |framed| - off then w else |framed| - off;
      sent := sent + framed[off..off + w]; // the kernel takes w of the bytes offered
      off := off + w;
    }
    return true, sent, calls;
  }

  /** One frame's write, by the client's writeLine or an MCP peer's writeMessage: of payload and
      newline, the first `taken` bytes got on the wire. Both writers go on after a failure. */
  datatype Attempt = Attempt(payload: Frame, taken: nat) {
    predicate Valid() { payload != [] && NL !in payload && taken <= |payload| + 1 }
    predicate Complete() { taken == |payload| + 1 }
    function Bytes(): seq<Byte>
      requires Valid()
    {
      (payload + [NL])[..taken]
    }
  }

  ghost predicate AllValid(attempts: seq<Attempt>) {
    forall k :: 0 <= k < |attempts| ==> attempts[k].Valid()
  }

  function Wire(attempts: seq<Attempt>): seq<Byte>
    requires AllValid(attempts)
  {
    if attempts == [] then [] else attempts[0].Bytes() + Wire(attempts[1..])
  }

  /** The payloads whose writes reported success. */
  function Reported(attempts: seq<Attempt>): seq<Frame> {
    if attempts == [] then []
    else (if attempts[0].Complete() then [attempts[0].payload] else []) + Reported(attempts[1..])
  }

  /** No write that failed part way is followed by a complete one. */
  ghost predicate NoTornFrame(attempts: seq<Attempt>) {
    forall i, j :: 0 <= i < j < |attempts| && !attempts[i].Complete() && attempts[i].taken > 0 ==>
                     !attempts[j].Complete()
  }

  ghost predicate NoneComplete(attempts: seq<Attempt>) {
    forall j :: 0 <= j < |attempts| ==> !attempts[j].Complete()
  }

  lemma {:induction false} NoneReported(attempts: seq<Attempt>)
    requires NoneComplete(attempts)
    ensures Reported(attempts) == []
  {
    if attempts != [] {
      assert forall j :: 0 <= j < |attempts[1..]| ==> attempts[1..][j] == attempts[j + 1];
      NoneReported(attempts[1..]);
    }
  }

  lemma TornTail(attempts: seq<Attempt>)
    requires attempts != []
    ensures attempts[0].Complete() || attempts[0].taken == 0 ==> (NoTornFrame(attempts) <==> NoTornFrame(attempts[1..]))
    ensures !attempts[0].Complete() && attempts[0].taken > 0 ==>
              (NoTornFrame(attempts) <==> NoneComplete(attempts[1..]))
    ensures !attempts[0].Complete() ==> (NoneComplete(attempts) <==> NoneComplete(attempts[1..]))
  {
    var rest := attempts[1..];
    assert forall j :: 0 <= j < |rest| ==> rest[j] == attempts[j + 1];
    if NoTornFrame(rest) && (attempts[0].Complete() || attempts[0].taken == 0) {
      forall i, j | 0 <= i < j < |attempts| && !attempts[i].Complete() && attempts[i].taken > 0
        ensures !attempts[j].Complete()
      {
        assert attempts[i] == rest[i - 1] && attempts[j] == rest[j - 1];
      }
    }
    if NoneComplete(rest) {
      forall j | 0 < j < |attempts|
        ensures !attempts[j].Complete()
      {
        assert attempts[j] == rest[j - 1];
      }
    }
  }

  /** The first attempt on a wire that still holds the unfinished `residue`. */
  lemma OnWire(residue: seq<Byte>, attempts: seq<Attempt>)
    requires AllValid(attempts) && attempts != []
    ensures var a, rest := attempts[0], attempts[1..];
            if a.Complete() then residue + Wire(attempts) == (residue + a.payload) + [NL] + Wire(rest)
            else NL !in a.Bytes() && residue + Wire(attempts) == (residue + a.Bytes()) + Wire(rest)
  {
    var a := attempts[0];
    if a.Complete() {
      assert a.Bytes() == a.payload + [NL];
    } else {
      assert a.Bytes() == a.payload[..a.taken];
    }
  }
}
