/** The server's inbound side: readLine and the read loop of handleConn in
    sidecar/internal/rpc/server.go. */
module ServerReader {
  import opened Lines
  import opened Framing

  /** Largest inbound message, its newline included: 16 << 20. */
  const MAX_LINE: nat := 16777216

  datatype ReadEnd = Whole | Eof | TooLong

  function TrimEnd(line: seq<Byte>): (r: seq<Byte>)
    ensures r <= line
    ensures r == [] || (r[|r| - 1] != NL && r[|r| - 1] != CR)
    ensures forall k :: |r| <= k < |line| ==> line[k] == NL || line[k] == CR
  {
    if line != [] && (line[|line| - 1] == NL || line[|line| - 1] == CR) then TrimEnd(line[..|line| - 1]) else line
  }

  method Trim(line: seq<Byte>) returns (r: seq<Byte>)
    ensures r == TrimEnd(line) && r <= line
    ensures r == [] || (r[|r| - 1] != 10 && r[|r| - 1] != 13)
    ensures forall k :: |r| <= k < |line| ==> line[k] == 10 || line[k] == 13
  {
    r := line;
    while |r| > 0 && (r[|r| - 1] == NL || r[|r| - 1] == CR)
      invariant TrimEnd(r) == TrimEnd(line)
    {
      r := r[..|r| - 1];
    }
  }

  /** One message off the front of `stream`, which the peer then closes. */
  method ReadLine(stream: seq<Byte>) returns (line: seq<Byte>, end: ReadEnd, rest: seq<Byte>)
    ensures end.Whole? <==> NL in stream && IndexOf(stream, NL) + 1 <= 16777216
    ensures end.Whole? ==>
              line == TrimEnd(stream[..IndexOf(stream, NL) + 1]) && rest == stream[IndexOf(stream, NL) + 1..]
    ensures end.Eof? ==> line == TrimEnd(stream)
    ensures end.TooLong? <==> (if NL in stream then IndexOf(stream, NL) + 1 else |stream|) > 16777216
  {
    var nl := IndexOf(stream, NL);
    assert stream[..|stream|] == stream;
    var raw := if nl < |stream| then stream[..nl + 1] else stream;
    rest := stream[|raw|..];
    if |raw| > MAX_LINE {
      return [], TooLong, rest;
    }
    line := Trim(raw);
    end := if nl < |stream| then Whole else Eof;
  }

  /** The messages dispatched for `stream`; a last one without its newline is not. */
  function Dispatched(stream: seq<Byte>): seq<Frame> {
    var nl := IndexOf(stream, NL);
    if nl == |stream| || nl + 1 > MAX_LINE then []
    else
      var line := TrimEnd(stream[..nl + 1]);
      (if line == [] then [] else [line]) + Dispatched(stream[nl + 1..])
  }

  method HandleConn(stream: seq<Byte>) returns (dispatched: seq<Frame>)
    ensures dispatched == Dispatched(stream)
  {
    dispatched := [];
    var rest := stream;
    while true
      invariant dispatched + Dispatched(rest) == Dispatched(stream)
      decreases |rest|
    {
      var line, end, next := ReadLine(rest);
      if !end.Whole? {
        assert rest[..|rest|] == rest;
        return;
      }
      Shift(dispatched, line, Dispatched(next));
      rest := next;
      if |line| == 0 {
        continue;
      }
      dispatched := dispatched + [line];
    }
  }

  /** Payloads each followed by a newline, as both writers frame them. */
  function Frames(payloads: seq<Frame>): seq<Byte> {
    if payloads == [] then [] else payloads[0] + [NL] + Frames(payloads[1..])
  }

  ghost predicate Sendable(payloads: seq<Frame>) {
    forall k :: 0 <= k < |payloads| ==> payloads[k] != [] && NL !in payloads[k]
  }

  predicate Acceptable(payload: Frame) {
    |payload| + 1 <= 16777216 && payload != [] && payload[|payload| - 1] != 13
  }

  lemma TrimPayload(payload: Frame)
    requires payload != [] && NL !in payload
    ensures TrimEnd(payload + [NL]) == TrimEnd(payload)
    ensures TrimEnd(payload) == payload <==> payload[|payload| - 1] != CR
  {
    assert (payload + [NL])[..|payload|] == payload;
    assert payload[|payload| - 1] in payload;
  }

  lemma DispatchOne(payload: Frame, rest: seq<Byte>)
    requires NL !in payload
    ensures Dispatched(payload + [NL] + rest)
            == if |payload| + 1 > MAX_LINE then []
               else (if TrimEnd(payload + [NL]) == [] then [] else [TrimEnd(payload + [NL])]) + Dispatched(rest)
  {
    var stream := payload + [NL] + rest;
    IndexOfFirst(payload, NL, rest);
    assert stream[..|payload| + 1] == payload + [NL] && stream[|payload| + 1..] == rest;
  }

  lemma NoNewline(tail: seq<Byte>)
    requires NL !in tail
    ensures Dispatched(tail) == []
  {
    assert forall k :: 0 <= k < |tail| ==> tail[k] in tail;
  }

  lemma HeadMatches<T>(p: T, ps: seq<T>, head: seq<T>, d: seq<T>)
    requires |head| <= 1 && |d| <= |ps|
    ensures head + d == [p] + ps <==> head == [p] && d == ps
  {
    if head + d == [p] + ps {
      assert |head| == 1;
      assert (head + d)[0] == p && (head + d)[1..] == d && ([p] + ps)[1..] == ps;
    }
  }

  ghost predicate AllAcceptable(payloads: seq<Frame>) {
    forall k :: 0 <= k < |payloads| ==> Acceptable(payloads[k])
  }

  lemma AcceptableCons(payloads: seq<Frame>, p: Frame, ps: seq<Frame>)
    requires payloads != [] && p == payloads[0] && ps == payloads[1..]
    ensures payloads == [p] + ps
    ensures AllAcceptable(payloads) <==> Acceptable(p) && AllAcceptable(ps)
  {
    assert forall k :: 0 <= k < |ps| ==> ps[k] == payloads[k + 1];
  }

  lemma {:induction false} NoMoreThanReported(residue: seq<Byte>, attempts: seq<Attempt>)
    requires AllValid(attempts) && NL !in residue
    ensures |Dispatched(residue + Wire(attempts))| <= |Reported(attempts)|
    decreases |attempts|
  {
    if attempts == [] {
      assert residue + [] == residue;
      NoNewline(residue);
    } else {
      var a, rest := attempts[0], attempts[1..];
      OnWire(residue, attempts);
      if a.Complete() {
        DispatchOne(residue + a.payload, Wire(rest));
        NoMoreThanReported([], rest);
        assert [] + Wire(rest) == Wire(rest);
      } else {
        NoMoreThanReported(residue + a.Bytes(), rest);
      }
    }
  }

  /** A frame that follows unfinished bytes is not read back as itself, and without them it is
      exactly when it does not end in a carriage return. */
  lemma HeadIsPayload(residue: seq<Byte>, payload: Frame, line: seq<Byte>)
    requires payload != [] && NL !in payload && NL !in residue && line == TrimEnd(residue + payload + [NL])
    ensures line == payload <==> residue == [] && payload[|payload| - 1] != CR
  {
    var whole := residue + payload;
    TrimPayload(whole);
    assert whole[|whole| - 1] == payload[|payload| - 1];
    assert residue == [] ==> whole == payload;
  }

  /** The first whole frame on the wire, with `tail` behind it. */
  lemma FirstFrame(residue: seq<Byte>, p: Frame, tail: seq<Byte>, ps: seq<Frame>)
    requires p != [] && NL !in p && NL !in residue && |Dispatched(tail)| <= |ps|
    ensures Dispatched((residue + p) + [NL] + tail) == [p] + ps <==>
            residue == [] && Acceptable(p) && Dispatched(tail) == ps
  {
    var line := TrimEnd(residue + p + [NL]);
    DispatchOne(residue + p, tail);
    HeadIsPayload(residue, p, line);
    if |residue + p| + 1 <= MAX_LINE {
      HeadMatches(p, ps, if line == [] then [] else [line], Dispatched(tail));
    }
  }

  lemma HeadDispatched(residue: seq<Byte>, attempts: seq<Attempt>)
    requires AllValid(attempts) && NL !in residue && attempts != [] && attempts[0].Complete()
    ensures var p, rest := attempts[0].payload, attempts[1..];
            Dispatched(residue + Wire(attempts)) == Reported(attempts) <==>
            residue == [] && Acceptable(p) && Dispatched(Wire(rest)) == Reported(rest)
  {
    var rest := attempts[1..];
    NoMoreThanReported([], rest);
    assert [] + Wire(rest) == Wire(rest);
    OnWire(residue, attempts);
    FirstFrame(residue, attempts[0].payload, Wire(rest), Reported(rest));
  }

  lemma {:induction false} RecoversFrom(residue: seq<Byte>, attempts: seq<Attempt>)
    requires AllValid(attempts) && NL !in residue
    ensures Dispatched(residue + Wire(attempts)) == Reported(attempts) <==>
            if residue == [] then NoTornFrame(attempts) && AllAcceptable(Reported(attempts)) else NoneComplete(attempts)
    decreases |attempts|
  {
    if attempts == [] {
      assert residue + [] == residue;
      NoNewline(residue);
    } else {
      var a, rest := attempts[0], attempts[1..];
      TornTail(attempts);
      if a.Complete() {
        HeadDispatched(residue, attempts);
        RecoversFrom([], rest);
        assert [] + Wire(rest) == Wire(rest);
        AcceptableCons(Reported(attempts), a.payload, Reported(rest));
      } else {
        OnWire(residue, attempts);
        RecoversFrom(residue + a.Bytes(), rest);
        assert Reported(attempts) == Reported(rest);
        if NoneComplete(rest) {
          NoneReported(rest);
        }
      }
    }
  }

  /** The server dispatches exactly the payloads whose writes the client saw succeed if and only if
      no write that failed part way came before one that succeeded, and no such payload is
      over-long or ends in a carriage return. */
  lemma ServerRecovers(attempts: seq<Attempt>)
    requires AllValid(attempts)
    ensures Dispatched(Wire(attempts)) == Reported(attempts) <==>
            NoTornFrame(attempts) && AllAcceptable(Reported(attempts))
  {
    RecoversFrom([], attempts);
    assert [] + Wire(attempts) == Wire(attempts);
  }

  const TORN: seq<Attempt> := [Attempt([65], 1), Attempt([66], 2)]

  lemma TornWire()
    ensures AllValid(TORN) && Reported(TORN) == [[66]] && Wire(TORN) == [65, 66] + [NL] + []
  {
    assert TORN[1..] == [Attempt([66], 2)] && TORN[1..][1..] == [];
    assert Reported([Attempt([66], 2)]) == [[66]] + Reported([]);
    assert Wire([Attempt([66], 2)]) == [66, NL] + Wire([]);
    assert Wire(TORN) == [65] + [66, NL];
  }

  /** A write that took one byte of "A", then a whole "B": the server dispatches "AB". */
  lemma TornFrameSpoilsNext()
    ensures AllValid(TORN) && Reported(TORN) == [[66]] && Dispatched(Wire(TORN)) == [[65, 66]]
  {
    TornWire();
    DispatchOne([65, 66], []);
    TrimPayload([65, 66]);
    NoNewline([]);
  }
}
