/** Pending calls of app/Vmux/Sidecar/SidecarClient.swift: the table of continuations, and all
    interleavings of callers with the serial write queue. */
module SidecarClient {
  import opened Options

  datatype Result = Reply(line: string) | NotConnected

  /** A checked continuation: resuming it twice is a fatal error. */
  class Continuation {
    var result: Option<Result>

    constructor ()
      ensures result == None
    {
      result := None;
    }

    method Resume(r: Result)
      requires result == None
      modifies this
      ensures result == Some(r)
    {
      result := Some(r);
    }
  }

  class Client {
    var nextID: nat
    var pending: map<nat, Continuation>
    var connected: bool

    constructor ()
      ensures Valid() && pending == map[] && nextID == 0 && !connected
    {
      nextID, pending, connected := 0, map[], false;
    }

    /** Every pending id was handed out, and has its own continuation, not yet resumed. */
    ghost predicate Valid()
      reads this, pending.Values
    {
      && (forall id :: id in pending ==> id <= nextID && pending[id].result == None)
      && (forall i, j :: i in pending && j in pending && i != j ==> pending[i] != pending[j])
    }

    method MakeID() returns (id: nat)
      requires Valid()
      modifies this`nextID
      ensures Valid() && id == nextID == old(nextID) + 1 && id !in pending
    {
      nextID := nextID + 1;
      id := nextID;
    }

    method AddPending(id: nat, cont: Continuation)
      requires Valid() && id <= nextID && id !in pending
      requires cont.result == None && cont !in pending.Values
      modifies this`pending
      ensures Valid() && pending == old(pending)[id := cont]
    {
      pending := pending[id := cont];
    }

    /** removePending(id)?.resume(...), as route and the failed write do it. */
    method ResumePending(id: nat, r: Result) returns (found: bool)
      requires Valid()
      modifies this`pending, pending.Values
      ensures Valid() && pending == old(pending) - {id}
      ensures found <==> id in old(pending)
      ensures forall k :: k in old(pending) ==> old(pending)[k].result == (if k == id then Some(r) else None)
    {
      found := id in pending;
      if found {
        var cont := pending[id];
        pending := pending - {id};
        cont.Resume(r);
      }
      assert pending == old(pending) - {id};
    }

    /** Takes the whole table and fails every call in it. */
    method HandleDisconnect()
      requires Valid()
      modifies this`pending, this`connected, pending.Values
      ensures Valid() && !connected && pending == map[]
      ensures forall k :: k in old(pending) ==> old(pending)[k].result == Some(NotConnected)
    {
      connected := false;
      var inflight := pending;
      ghost var all := pending;
      pending := map[];
      while inflight != map[]
        invariant forall k :: k in inflight ==> k in all && inflight[k] == all[k]
        invariant forall k :: k in all ==> all[k].result == if k in inflight then None else Some(NotConnected)
        invariant pending == map[] && !connected
        decreases |inflight|
      {
        var id :| id in inflight;
        inflight[id].Resume(NotConnected);
        inflight := inflight - {id};
      }
    }
  }

  // ---- All interleavings ----

  /** Not yet connected, connected, disconnected by the read handler, and closed by close(). */
  datatype Link = Fresh | Up | Gone | Closed

  /** The read handler, which runs on the serial write queue while close() runs anywhere: not
      running, about to read, routing what it read, and about to fail every call. */
  datatype Handler = Idle | InRead | Routing | Failing

  /** A caller has its id, has added its continuation, has queued its write, or threw before
      either because encoding failed. */
  datatype Phase = Started | Added | Queued | Threw

  /** `queue` holds the writes waiting on the serial queue; `resumes` every resumption so far. */
  datatype State = State(
    link: Link, handler: Handler, nextID: nat, pending: set<nat>, queue: seq<nat>,
    phases: map<nat, Phase>, resumes: seq<(nat, Result)>)

  const START := State(Fresh, Idle, 0, {}, [], map[], [])

  datatype Label =
    | Connect
    | Begin                 // the guard passes and an id is made
    | EncodeFails(id: nat)
    | AddPending(id: nat)
    | Enqueue(id: nat)
    | Write(ok: bool)       // the write at the head of the queue
    | StartRead             // the handler starts
    | ReadOk                // its read returns bytes
    | RouteReply(id: nat, line: string)
    | EndRead
    | Disconnect            // its read sees EOF or an error, or finds the socket closed
    | FailAll               // and then it fails every pending call
    | CloseClient           // close(), also while the handler runs

  predicate InPhase(s: State, id: nat, p: Phase) {
    id in s.phases && s.phases[id] == p
  }

  predicate Enabled(s: State, l: Label) {
    match l
    case Connect => s.link.Fresh?
    case Begin => s.link.Up?
    case EncodeFails(id) => InPhase(s, id, Started)
    case AddPending(id) => InPhase(s, id, Started)
    case Enqueue(id) => InPhase(s, id, Added)
    case Write(ok) => s.queue != [] && s.handler.Idle? && (ok ==> s.link.Up?)
    case StartRead => s.link.Up? && s.handler.Idle?
    case ReadOk => s.link.Up? && s.handler.InRead?
    case RouteReply(_, _) => s.handler.Routing?
    case EndRead => s.handler.Routing?
    case Disconnect => s.handler.InRead?
    case FailAll => s.handler.Failing?
    case CloseClient => true
  }

  function Resume(s: State, id: nat, r: Result): State {
    if id in s.pending then s.(pending := s.pending - {id}, resumes := s.resumes + [(id, r)]) else s
  }

  /** Some order of the ids of `ids`, each once. */
  ghost predicate Lists(order: seq<nat>, ids: set<nat>) {
    (forall i :: 0 <= i < |order| ==> order[i] in ids) &&
    (forall id :: id in ids ==> id in order) &&
    (forall i, j :: 0 <= i < j < |order| ==> order[i] != order[j])
  }

  function Failures(order: seq<nat>): seq<(nat, Result)> {
    seq(|order|, i requires 0 <= i < |order| => (order[i], NotConnected))
  }

  ghost predicate Step(s: State, l: Label, t: State) {
    Enabled(s, l) &&
    match l
    case Connect => t == s.(link := Up)
    case Begin => t == s.(nextID := s.nextID + 1, phases := s.phases[s.nextID + 1 := Started])
    case EncodeFails(id) => t == s.(phases := s.phases[id := Threw])
    case AddPending(id) => t == s.(pending := s.pending + {id}, phases := s.phases[id := Added])
    case Enqueue(id) => t == s.(queue := s.queue + [id], phases := s.phases[id := Queued])
    case Write(ok) =>
      var rest := s.(queue := s.queue[1..]);
      t == if ok then rest else Resume(rest, s.queue[0], NotConnected)
    case RouteReply(id, line) => t == Resume(s, id, Reply(line))
    case StartRead => t == s.(handler := InRead)
    case ReadOk => t == s.(handler := Routing)
    case EndRead => t == s.(handler := Idle)
    case Disconnect => t == s.(handler := Failing, link := if s.link.Up? then Gone else s.link)
    case FailAll =>
      exists order :: Lists(order, s.pending) &&
        t == s.(handler := Idle, pending := {}, resumes := s.resumes + Failures(order))
    case CloseClient => t == if s.link.Up? then s.(link := Closed) else s
  }

  ghost predicate IsRun(ss: seq<State>, ls: seq<Label>) {
    |ss| == |ls| + 1 && ss[0] == START && forall i :: 0 <= i < |ls| ==> Step(ss[i], ls[i], ss[i + 1])
  }

  ghost predicate Resumed(s: State, id: nat) {
    exists k :: 0 <= k < |s.resumes| && s.resumes[k].0 == id
  }

  /** Written and unanswered. */
  predicate InFlight(s: State, id: nat) {
    id in s.pending && InPhase(s, id, Queued) && id !in s.queue
  }

  /** The call is over, or its write is still to come. */
  predicate WillResume(s: State, id: nat) {
    id in s.pending ==> InPhase(s, id, Added) || id in s.queue
  }

  /** A call with a continuation is either pending or resumed; once the socket is gone a pending
      one still has its write to come. */
  ghost predicate CallOk(s: State, id: nat) {
    && (id in s.phases ==> id <= s.nextID)
    && (id in s.pending ==> id in s.phases && !Resumed(s, id))
    && (Resumed(s, id) ==> InPhase(s, id, Added) || InPhase(s, id, Queued))
    && (InPhase(s, id, Added) || InPhase(s, id, Queued) ==> id in s.pending || Resumed(s, id))
    && (InPhase(s, id, Started) || InPhase(s, id, Threw) ==> id !in s.pending)
    && ((s.link.Gone? && !s.handler.Failing?) || s.link.Fresh? ==> WillResume(s, id))
    && (id in s.queue ==> InPhase(s, id, Queued))
  }

  ghost predicate AtMostOnce(s: State) {
    forall i, j :: 0 <= i < j < |s.resumes| ==> s.resumes[i].0 != s.resumes[j].0
  }

  ghost predicate Inv(s: State) {
    AtMostOnce(s) && forall id :: CallOk(s, id)
  }

  lemma ResumedSnoc(s: State, id: nat, r: Result, other: nat)
    requires id in s.pending
    ensures Resumed(Resume(s, id, r), other) <==> Resumed(s, other) || other == id
  {
    var t := Resume(s, id, r);
    assert t.resumes[|s.resumes|].0 == id;
    if Resumed(s, other) {
      var k :| 0 <= k < |s.resumes| && s.resumes[k].0 == other;
      assert t.resumes[k].0 == other;
    }
  }

  lemma FailuresResume(s: State, order: seq<nat>, t: State, other: nat)
    requires Lists(order, s.pending) && t.resumes == s.resumes + Failures(order)
    ensures Resumed(t, other) <==> Resumed(s, other) || other in s.pending
  {
    if Resumed(s, other) {
      var k :| 0 <= k < |s.resumes| && s.resumes[k].0 == other;
      assert t.resumes[k].0 == other;
    }
    if other in s.pending {
      var k :| 0 <= k < |order| && order[k] == other;
      assert t.resumes[|s.resumes| + k].0 == other;
    }
  }

  lemma ResumeKeeps(s: State, id: nat, r: Result)
    requires AtMostOnce(s) && forall k :: CallOk(s, k)
    ensures Inv(Resume(s, id, r))
  {
    if id in s.pending {
      var t := Resume(s, id, r);
      assert CallOk(s, id);
      forall k
        ensures CallOk(t, k)
      {
        assert CallOk(s, k);
        ResumedSnoc(s, id, r, k);
      }
    }
  }

  lemma WriteKeeps(s: State, ok: bool, t: State)
    requires Inv(s) && Step(s, Write(ok), t)
    ensures Inv(t)
  {
    var id, rest := s.queue[0], s.(queue := s.queue[1..]);
    assert s.queue == [id] + s.queue[1..];
    if ok {
      forall k
        ensures CallOk(t, k)
      {
        assert CallOk(s, k);
        assert Resumed(t, k) <==> Resumed(s, k);
      }
    } else {
      assert CallOk(s, id);
      forall k
        ensures CallOk(t, k)
      {
        assert CallOk(s, k);
        assert Resumed(rest, k) <==> Resumed(s, k);
        if id in s.pending {
          ResumedSnoc(rest, id, NotConnected, k);
        }
      }
      assert id in s.pending ==> !Resumed(s, id);
    }
  }

  lemma FailAllKeeps(s: State, t: State)
    requires Inv(s) && Step(s, FailAll, t)
    ensures Inv(t)
  {
    var order :| Lists(order, s.pending) &&
                 t == s.(handler := Idle, pending := {}, resumes := s.resumes + Failures(order));
    forall k
      ensures CallOk(t, k)
    {
      assert CallOk(s, k);
      FailuresResume(s, order, t, k);
    }
    forall i, j | 0 <= i < j < |t.resumes|
      ensures t.resumes[i].0 != t.resumes[j].0
    {
      if i < |s.resumes| <= j {
        var id := order[j - |s.resumes|];
        assert CallOk(s, id);
        assert t.resumes[j].0 == id;
      }
    }
  }

  /** Steps that resume nothing. */
  lemma QuietStepKeeps(s: State, l: Label, t: State)
    requires Inv(s) && Step(s, l, t) && !l.Write? && !l.FailAll? && !l.RouteReply?
    ensures Inv(t)
  {
    forall k
      ensures CallOk(t, k)
    {
      assert CallOk(s, k);
      assert Resumed(t, k) <==> Resumed(s, k);
    }
  }

  lemma {:induction false} InvRun(ss: seq<State>, ls: seq<Label>, i: nat)
    requires IsRun(ss, ls) && i < |ss|
    ensures Inv(ss[i])
  {
    if i > 0 {
      InvRun(ss, ls, i - 1);
      var s, l, t := ss[i - 1], ls[i - 1], ss[i];
      assert Step(s, l, t);
      match l
      case Write(ok) => WriteKeeps(s, ok, t);
      case FailAll => FailAllKeeps(s, t);
      case RouteReply(id, line) => ResumeKeeps(s, id, Reply(line));
      case _ => QuietStepKeeps(s, l, t);
    }
  }

  // ---- What every run guarantees ----

  /** No continuation is resumed twice, whatever the interleaving. */
  lemma ResumedAtMostOnce(ss: seq<State>, ls: seq<Label>, i: nat)
    requires IsRun(ss, ls) && i < |ss|
    ensures AtMostOnce(ss[i])
  {
    InvRun(ss, ls, i);
  }

  /** With the connection gone, the handler done and the serial queue drained, every call that
      queued its write has been resumed. */
  lemma AllResumedWhenGone(ss: seq<State>, ls: seq<Label>, i: nat, id: nat)
    requires IsRun(ss, ls) && i < |ss| && ss[i].link.Gone? && ss[i].handler.Idle?
    requires ss[i].queue == [] && InPhase(ss[i], id, Queued)
    ensures Resumed(ss[i], id) && AtMostOnce(ss[i])
  {
    InvRun(ss, ls, i);
    assert CallOk(ss[i], id);
  }

  /** A drained client is missing a resumption exactly for the calls still in its table. */
  lemma UnresumedIffPending(ss: seq<State>, ls: seq<Label>, i: nat, id: nat)
    requires IsRun(ss, ls) && i < |ss| && InPhase(ss[i], id, Queued)
    ensures !Resumed(ss[i], id) <==> id in ss[i].pending
  {
    InvRun(ss, ls, i);
    assert CallOk(ss[i], id);
  }

  /** The step resumes the call: a reply is routed to it, or every call is failed. */
  predicate Settles(l: Label, id: nat) {
    l.FailAll? || (l.RouteReply? && l.id == id)
  }

  ghost predicate SettledBetween(ls: seq<Label>, i: nat, j: nat, id: nat) {
    exists k :: i <= k < j && k < |ls| && Settles(ls[k], id)
  }

  lemma ClosedStep(s: State, l: Label, t: State, id: nat)
    requires Inv(s) && Step(s, l, t) && s.link.Closed?
    ensures t.link.Closed?
    ensures InFlight(s, id) && !Settles(l, id) ==> InFlight(t, id)
    ensures InFlight(s, id) && Settles(l, id) ==> WillResume(t, id)
    ensures WillResume(s, id) ==> WillResume(t, id)
  {
    assert CallOk(s, id) && CallOk(s, s.nextID + 1);
    if l.Write? {
      assert s.queue == [s.queue[0]] + s.queue[1..];
    }
  }

  lemma SettledMore(ls: seq<Label>, i: nat, m: nat, j: nat, id: nat)
    requires i <= m < |ls| && j == m + 1
    ensures SettledBetween(ls, i, j, id) <==> SettledBetween(ls, i, m, id) || Settles(ls[m], id)
  {
  }

  lemma {:induction false} ClosedRun(ss: seq<State>, ls: seq<Label>, i: nat, j: nat, id: nat)
    requires IsRun(ss, ls) && i <= j < |ss| && ss[i].link.Closed?
    ensures ss[j].link.Closed?
    ensures WillResume(ss[i], id) ==> WillResume(ss[j], id)
    decreases j
  {
    if i < j {
      ClosedRun(ss, ls, i, j - 1, id);
      InvRun(ss, ls, j - 1);
      ClosedStep(ss[j - 1], ls[j - 1], ss[j], id);
    }
  }

  lemma {:induction false} InFlightRun(ss: seq<State>, ls: seq<Label>, i: nat, j: nat, id: nat)
    requires IsRun(ss, ls) && i <= j < |ss| && ss[i].link.Closed? && InFlight(ss[i], id)
    ensures if SettledBetween(ls, i, j, id) then WillResume(ss[j], id) else InFlight(ss[j], id)
    decreases j
  {
    if i < j {
      InFlightRun(ss, ls, i, j - 1, id);
      ClosedRun(ss, ls, i, j - 1, id);
      InvRun(ss, ls, j - 1);
      ClosedStep(ss[j - 1], ls[j - 1], ss[j], id);
      SettledMore(ls, i, j - 1, j, id);
    }
  }

  /** What becomes of a call after close(): with the serial queue drained it has been resumed if and
      only if it was not written and unanswered at the close, or a handler that was running at the
      close still routed its reply or failed every call. */
  lemma ResumedAfterClose(ss: seq<State>, ls: seq<Label>, i: nat, j: nat, id: nat)
    requires IsRun(ss, ls) && i <= j < |ss| && ss[i].link.Closed?
    requires ss[j].queue == [] && InPhase(ss[j], id, Queued)
    ensures Resumed(ss[j], id) <==> !InFlight(ss[i], id) || SettledBetween(ls, i, j, id)
  {
    InvRun(ss, ls, i);
    InvRun(ss, ls, j);
    assert CallOk(ss[i], id) && CallOk(ss[j], id);
    ClosedRun(ss, ls, i, j, id);
    if InFlight(ss[i], id) {
      InFlightRun(ss, ls, i, j, id);
    }
  }

  /** Once closed and not running, the handler never runs again. */
  lemma {:induction false} HandlerStaysIdle(ss: seq<State>, ls: seq<Label>, i: nat, j: nat)
    requires IsRun(ss, ls) && i <= j < |ss| && ss[i].link.Closed? && ss[i].handler.Idle?
    ensures ss[j].link.Closed? && ss[j].handler.Idle?
    decreases j
  {
    if i < j {
      HandlerStaysIdle(ss, ls, i, j - 1);
      assert Step(ss[j - 1], ls[j - 1], ss[j]);
    }
  }

  lemma NothingSettles(ss: seq<State>, ls: seq<Label>, i: nat, j: nat, id: nat)
    requires IsRun(ss, ls) && i <= j < |ss| && ss[i].link.Closed? && ss[i].handler.Idle?
    ensures !SettledBetween(ls, i, j, id)
  {
    forall k | i <= k < j
      ensures !Settles(ls[k], id)
    {
      HandlerStaysIdle(ss, ls, i, k);
      assert Step(ss[k], ls[k], ss[k + 1]);
    }
  }

  /** After close() with no handler running, nothing fails the calls whose write already went out:
      they stay pending for ever. */
  lemma ClosedNeverResumes(ss: seq<State>, ls: seq<Label>, i: nat, j: nat, id: nat)
    requires IsRun(ss, ls) && i <= j < |ss| && ss[i].link.Closed? && ss[i].handler.Idle? && InFlight(ss[i], id)
    ensures id in ss[j].pending && !Resumed(ss[j], id)
  {
    NothingSettles(ss, ls, i, j, id);
    InFlightRun(ss, ls, i, j, id);
    InvRun(ss, ls, j);
    assert CallOk(ss[j], id);
  }

  /** And only those are lost then. */
  lemma ResumedUnlessInFlight(ss: seq<State>, ls: seq<Label>, i: nat, j: nat, id: nat)
    requires IsRun(ss, ls) && i <= j < |ss| && ss[i].link.Closed? && ss[i].handler.Idle?
    requires ss[j].queue == [] && InPhase(ss[j], id, Queued)
    ensures Resumed(ss[j], id) <==> !InFlight(ss[i], id)
  {
    NothingSettles(ss, ls, i, j, id);
    ResumedAfterClose(ss, ls, i, j, id);
  }

  /** One call, written and unanswered, on an open connection. */
  const WRITTEN := State(Up, Idle, 1, {1}, [], map[1 := Queued], [])

  /** A call made on a fresh connection and written. */
  lemma CallWritten() returns (s1: State, s2: State, s3: State, s4: State, s5: State)
    ensures Step(START, Connect, s1) && Step(s1, Begin, s2) && Step(s2, AddPending(1), s3)
    ensures Step(s3, Enqueue(1), s4) && Step(s4, Write(true), s5)
    ensures s5 == WRITTEN
  {
    s1 := START.(link := Up);
    s2 := s1.(nextID := 1, phases := map[1 := Started]);
    s3 := s2.(pending := {1}, phases := map[1 := Added]);
    s4 := s3.(queue := [1], phases := map[1 := Queued]);
    s5 := s4.(queue := []);
    assert START.pending + {1} == {1};
    assert [] + [1] == [1] && s4.queue[1..] == [];
  }

  /** A call that is lost. */
  lemma CloseLeavesPending() returns (ss: seq<State>)
    ensures IsRun(ss, [Connect, Begin, AddPending(1), Enqueue(1), Write(true), CloseClient])
    ensures ss[6].handler.Idle? && ss[6].queue == [] && InPhase(ss[6], 1, Queued) && !Resumed(ss[6], 1)
  {
    var s1, s2, s3, s4, s5 := CallWritten();
    var s6 := s5.(link := Closed);
    ss := [START, s1, s2, s3, s4, s5, s6];
    assert Step(s5, CloseClient, s6);
  }

  lemma ReplyRouted(line: string) returns (s6: State, s7: State, s8: State, s9: State)
    ensures Step(WRITTEN, StartRead, s6) && Step(s6, ReadOk, s7) && Step(s7, CloseClient, s8)
    ensures Step(s8, RouteReply(1, line), s9)
    ensures s8.link.Closed? && InFlight(s8, 1) && s9.resumes == [(1, Reply(line))]
  {
    s6 := WRITTEN.(handler := InRead);
    s7 := s6.(handler := Routing);
    s8 := s7.(link := Closed);
    s9 := Resume(s8, 1, Reply(line));
  }

  /** The same call, whose reply the handler had read before close() and routes after it. */
  lemma ReplyAfterClose(line: string, ls: seq<Label>) returns (ss: seq<State>)
    requires ls == [Connect, Begin, AddPending(1), Enqueue(1), Write(true), StartRead, ReadOk, CloseClient,
                    RouteReply(1, line)]
    ensures IsRun(ss, ls)
    ensures ss[8].link.Closed? && InFlight(ss[8], 1) && ss[9].resumes == [(1, Reply(line))]
  {
    var s1, s2, s3, s4, s5 := CallWritten();
    var s6, s7, s8, s9 := ReplyRouted(line);
    ss := [START, s1, s2, s3, s4, s5, s6, s7, s8, s9];
    forall i | 0 <= i < 9
      ensures Step(ss[i], ls[i], ss[i + 1])
    {
      assert i in {0, 1, 2, 3, 4, 5, 6, 7, 8};
    }
  }

  lemma CallFailed() returns (s6: State, s7: State, s8: State, s9: State)
    ensures Step(WRITTEN, StartRead, s6) && Step(s6, CloseClient, s7) && Step(s7, Disconnect, s8)
    ensures Step(s8, FailAll, s9)
    ensures s7.link.Closed? && InFlight(s7, 1) && s9.resumes == [(1, NotConnected)]
  {
    s6 := WRITTEN.(handler := InRead);
    s7 := s6.(link := Closed);
    s8 := s7.(handler := Failing);
    s9 := s8.(handler := Idle, pending := {}, resumes := [(1, NotConnected)]);
    assert Lists([1], s8.pending) && s8.resumes + Failures([1]) == [(1, NotConnected)];
  }

  /** The same call, when close() comes between the start of the handler and its read: the read
      finds the socket closed, and the call is failed after all. */
  lemma FailedAfterClose(ls: seq<Label>) returns (ss: seq<State>)
    requires ls == [Connect, Begin, AddPending(1), Enqueue(1), Write(true), StartRead, CloseClient, Disconnect,
                    FailAll]
    ensures IsRun(ss, ls)
    ensures ss[7].link.Closed? && InFlight(ss[7], 1) && ss[9].resumes == [(1, NotConnected)]
  {
    var s1, s2, s3, s4, s5 := CallWritten();
    var s6, s7, s8, s9 := CallFailed();
    ss := [START, s1, s2, s3, s4, s5, s6, s7, s8, s9];
    forall i | 0 <= i < 9
      ensures Step(ss[i], ls[i], ss[i + 1])
    {
      assert i in {0, 1, 2, 3, 4, 5, 6, 7, 8};
    }
  }

  // ---- When calls are let in ----

  /** The client connected in one of the first i steps, and was neither disconnected nor closed since. */
  ghost predicate Connected(ls: seq<Label>, i: nat) {
    exists a :: 0 <= a < i && a < |ls| && ls[a] == Connect && KeptSince(ls, a, i)
  }

  ghost predicate KeptSince(ls: seq<Label>, a: nat, i: nat) {
    forall k :: a < k < i && k < |ls| ==> ls[k] != Disconnect && ls[k] != CloseClient
  }

  lemma ConnectedStep(ls: seq<Label>, i: nat)
    requires i < |ls|
    ensures Connected(ls, i + 1) <==>
            ls[i] == Connect || (Connected(ls, i) && ls[i] != Disconnect && ls[i] != CloseClient)
  {
    if Connected(ls, i) && ls[i] != Disconnect && ls[i] != CloseClient {
      var a :| 0 <= a < i && ls[a] == Connect && KeptSince(ls, a, i);
      assert KeptSince(ls, a, i + 1);
    }
    if ls[i] == Connect {
      assert KeptSince(ls, i, i + 1);
    }
    if Connected(ls, i + 1) && ls[i] != Connect {
      var a :| 0 <= a < i + 1 && ls[a] == Connect && KeptSince(ls, a, i + 1);
      assert KeptSince(ls, a, i);
    }
  }

  lemma LinkStep(s: State, l: Label, t: State)
    requires Step(s, l, t)
    ensures t.link.Up? <==> l == Connect || (s.link.Up? && l != Disconnect && l != CloseClient)
  {
  }

  /** In every run a call passes the guard, and is given an id, exactly while the client is connected. */
  lemma {:induction false} CallsOnlyWhileConnected(ss: seq<State>, ls: seq<Label>, i: nat)
    requires IsRun(ss, ls) && i < |ss|
    ensures Enabled(ss[i], Begin) <==> Connected(ls, i)
  {
    if i > 0 {
      CallsOnlyWhileConnected(ss, ls, i - 1);
      ConnectedStep(ls, i - 1);
      assert Step(ss[i - 1], ls[i - 1], ss[i]);
      LinkStep(ss[i - 1], ls[i - 1], ss[i]);
    }
  }

  // ---- Which step resumes a call, and with what ----

  /** The step resumes call `id` with `r`: a reply is routed to it, its write fails, or the
      disconnect fails every call. */
  predicate Delivers(s: State, l: Label, id: nat, r: Result) {
    match l
    case RouteReply(to, line) => to == id && r == Reply(line)
    case Write(ok) => !ok && s.queue != [] && s.queue[0] == id && r == NotConnected
    case FailAll => r == NotConnected
    case _ => false
  }

  ghost predicate ResumedWith(s: State, id: nat, r: Result) {
    exists k :: 0 <= k < |s.resumes| && s.resumes[k] == (id, r)
  }

  lemma ResumeAdds(s: State, id: nat, r: Result, t: State)
    requires t == Resume(s, id, r)
    ensures forall other, q :: ResumedWith(t, other, q) <==>
              ResumedWith(s, other, q) || (id in s.pending && other == id && q == r)
  {
    if id in s.pending {
      assert t.resumes[|s.resumes|] == (id, r);
      assert forall k :: 0 <= k < |s.resumes| ==> t.resumes[k] == s.resumes[k];
    }
  }

  lemma FailuresAdd(s: State, order: seq<nat>, t: State)
    requires Lists(order, s.pending) && t.resumes == s.resumes + Failures(order)
    ensures forall other, q :: ResumedWith(t, other, q) <==>
              ResumedWith(s, other, q) || (other in s.pending && q == NotConnected)
  {
    forall other | other in s.pending
      ensures ResumedWith(t, other, NotConnected)
    {
      var k :| 0 <= k < |order| && order[k] == other;
      assert t.resumes[|s.resumes| + k] == (other, NotConnected);
    }
    assert forall k :: 0 <= k < |s.resumes| ==> t.resumes[k] == s.resumes[k];
    assert forall k :: |s.resumes| <= k < |t.resumes| ==>
                         t.resumes[k] == (order[k - |s.resumes|], NotConnected);
  }

  lemma DeliversExactly(s: State, l: Label, t: State, id: nat, r: Result)
    requires Step(s, l, t)
    ensures ResumedWith(t, id, r) <==> ResumedWith(s, id, r) || (id in s.pending && Delivers(s, l, id, r))
  {
    match l
    case RouteReply(to, line) => ResumeAdds(s, to, Reply(line), t);
    case Write(ok) =>
      if !ok {
        var rest := s.(queue := s.queue[1..]);
        ResumeAdds(rest, s.queue[0], NotConnected, t);
        assert ResumedWith(rest, id, r) <==> ResumedWith(s, id, r);
      } else {
        assert t.resumes == s.resumes;
      }
    case FailAll =>
      var order :| Lists(order, s.pending) &&
                   t == s.(handler := Idle, pending := {}, resumes := s.resumes + Failures(order));
      FailuresAdd(s, order, t);
    case _ => assert t.resumes == s.resumes;
  }

  /** In every run a call that has its continuation and is not yet resumed is resumed by exactly the
      steps meant for it, with exactly what they bring: the line routed for its id, or the news that
      the connection is gone when its write fails or every call is failed. */
  lemma ResumesExactly(ss: seq<State>, ls: seq<Label>, i: nat, id: nat, r: Result)
    requires IsRun(ss, ls) && i < |ls| && !Resumed(ss[i], id)
    requires InPhase(ss[i], id, Added) || InPhase(ss[i], id, Queued)
    ensures ResumedWith(ss[i + 1], id, r) <==> Delivers(ss[i], ls[i], id, r)
  {
    InvRun(ss, ls, i);
    assert CallOk(ss[i], id) && Step(ss[i], ls[i], ss[i + 1]);
    DeliversExactly(ss[i], ls[i], ss[i + 1], id, r);
    assert ResumedWith(ss[i], id, r) ==> Resumed(ss[i], id);
  }

  // ---- Whose reply a call gets ----

  ghost predicate RepliesRouted(ls: seq<Label>, i: nat, s: State) {
    forall k :: 0 <= k < |s.resumes| && s.resumes[k].1.Reply? ==>
                  RoutedBefore(ls, i, s.resumes[k].0, s.resumes[k].1.line)
  }

  ghost predicate RoutedBefore(ls: seq<Label>, i: nat, id: nat, line: string) {
    exists j :: 0 <= j < i && j < |ls| && ls[j] == RouteReply(id, line)
  }

  lemma RepliesStep(ls: seq<Label>, i: nat, s: State, t: State)
    requires i < |ls| && Step(s, ls[i], t) && RepliesRouted(ls, i, s)
    ensures RepliesRouted(ls, i + 1, t)
  {
    forall k | 0 <= k < |t.resumes| && t.resumes[k].1.Reply?
      ensures RoutedBefore(ls, i + 1, t.resumes[k].0, t.resumes[k].1.line)
    {
      if k < |s.resumes| {
        assert t.resumes[k] == s.resumes[k];
      } else {
        assert ls[i] == RouteReply(t.resumes[k].0, t.resumes[k].1.line);
      }
    }
  }

  lemma {:induction false} RepliesRun(ss: seq<State>, ls: seq<Label>, i: nat)
    requires IsRun(ss, ls) && i < |ss|
    ensures RepliesRouted(ls, i, ss[i])
  {
    if i > 0 {
      RepliesRun(ss, ls, i - 1);
      RepliesStep(ls, i - 1, ss[i - 1], ss[i]);
    }
  }

  /** A call resumed with a reply got a line routed for its own id earlier in the run, and no call
      gets a second one. */
  lemma OwnReply(ss: seq<State>, ls: seq<Label>, i: nat, k: nat, id: nat, line: string)
    requires IsRun(ss, ls) && i < |ss| && k < |ss[i].resumes| && ss[i].resumes[k] == (id, Reply(line))
    ensures exists j :: 0 <= j < i && ls[j] == RouteReply(id, line)
    ensures forall m :: 0 <= m < |ss[i].resumes| && ss[i].resumes[m].0 == id ==> m == k
  {
    RepliesRun(ss, ls, i);
    assert RoutedBefore(ls, i, id, line);
    InvRun(ss, ls, i);
  }
}
