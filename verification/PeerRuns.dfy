/** All interleavings of calls, the reader goroutine and Close on one sidecar/internal/mcp/peer.go
    peer, one atomic section or channel operation per step. */
module PeerRuns {
  import opened McpPeer
  import opened Options

  /** A one-slot channel: the messages ever sent, whether the receiver took one, closed or not. */
  datatype Channel = Channel(sent: seq<Message>, taken: bool, closed: bool) {
    predicate Unused() { sent == [] && !taken && !closed }
    /** Room in the slot; a send would otherwise block, or panic when closed. */
    predicate Sendable() { !closed && (sent == [] || taken) }
    predicate Receivable() { closed || (sent != [] && !taken) }
  }

  datatype Outcome = Response(m: Message) | Disconnected | PeerClosed | WriteFailed | Cancelled

  /** Where a Call is: before registering, writing its request, in its select, about to drop its
      registration, or returned. */
  datatype Phase = Allocated | Writing | Waiting | Dropping(why: Outcome) | Returned(outcome: Outcome)

  datatype Call = Call(ch: nat, phase: Phase)

  /** The Run goroutine: reading, between deliver's critical section and its send, or returned. */
  datatype Reader = Reading | Delivering(ch: nat, m: Message) | Exited

  /** The guarded fields with channels named by numbers, the channels, the calls and the reader. */
  datatype State = State(table: Table<nat>, chans: map<nat, Channel>, calls: map<int, Call>, reader: Reader)

  const START := State(Table(0, map[], false), map[], map[], Reading)

  datatype Label =
    | Begin(ch: nat)        // Call takes the next id and makes a channel
    | Register(id: int)     // under the lock: refuse if closed, else enter the pending table
    | WriteOk(id: int)
    | WriteErr(id: int)
    | Cancel(id: int)       // the select takes ctx.Done
    | Receive(id: int)      // the select takes the channel
    | Drop(id: int)         // dropPending, then return
    | Route(m: Message)     // the reader routes a frame; a response is looked up and unregistered
    | Send                  // the reader sends on the channel it looked up
    | FailPending           // a read error or EOF: close every pending channel and return
    | Oversize              // a frame over the limit: return at once
    | Close

  predicate InPhase(s: State, id: int, phase: Phase) {
    id in s.calls && s.calls[id].phase == phase
  }

  predicate Enabled(s: State, l: Label) {
    match l
    case Begin(ch) => ch !in s.chans
    case Register(id) => InPhase(s, id, Allocated)
    case WriteOk(id) => InPhase(s, id, Writing)
    case WriteErr(id) => InPhase(s, id, Writing)
    case Cancel(id) => InPhase(s, id, Waiting)
    case Receive(id) => InPhase(s, id, Waiting) && s.calls[id].ch in s.chans && s.chans[s.calls[id].ch].Receivable()
    case Drop(id) => id in s.calls && s.calls[id].phase.Dropping?
    case Route(_) => s.reader.Reading?
    case Send => s.reader.Delivering? && s.reader.ch in s.chans && s.chans[s.reader.ch].Sendable()
    case FailPending => s.reader.Reading?
    case Oversize => s.reader.Reading?
    case Close => true
  }

  function SetPhase(s: State, id: int, phase: Phase): State
    requires id in s.calls
  {
    s.(calls := s.calls[id := s.calls[id].(phase := phase)])
  }

  function Routed(s: State, m: Message): State {
    if !IsResponse(m) || m.id.None? || m.id.value !in s.table.pending then s
    else s.(table := s.table.Drop(m.id.value), reader := Delivering(s.table.pending[m.id.value], m))
  }

  function Received(c: Channel): Outcome {
    if c.sent != [] && !c.taken then Response(c.sent[|c.sent| - 1]) else Disconnected
  }

  predicate IsPending(s: State, ch: nat) {
    exists id :: id in s.table.pending && s.table.pending[id] == ch
  }

  function Next(s: State, l: Label): State
    requires Enabled(s, l)
  {
    match l
    case Begin(ch) =>
      s.(table := s.table.Count(), chans := s.chans[ch := Channel([], false, false)],
         calls := s.calls[s.table.nextID + 1 := Call(ch, Allocated)])
    case Register(id) =>
      if s.table.closed then SetPhase(s, id, Returned(PeerClosed))
      else SetPhase(s, id, Writing).(table := s.table.Enter(id, s.calls[id].ch))
    case WriteOk(id) => SetPhase(s, id, Waiting)
    case WriteErr(id) => SetPhase(s, id, Dropping(WriteFailed))
    case Cancel(id) => SetPhase(s, id, Dropping(Cancelled))
    case Receive(id) =>
      var c := s.chans[s.calls[id].ch];
      SetPhase(s, id, Returned(Received(c))).(chans := s.chans[s.calls[id].ch := c.(taken := c.sent != [])])
    case Drop(id) => SetPhase(s, id, Returned(s.calls[id].phase.why)).(table := s.table.Drop(id))
    case Route(m) => Routed(s, m)
    case Send =>
      var c := s.chans[s.reader.ch];
      s.(chans := s.chans[s.reader.ch := c.(sent := c.sent + [s.reader.m])], reader := Reading)
    case FailPending =>
      s.(chans := map ch | ch in s.chans :: if IsPending(s, ch) then s.chans[ch].(closed := true) else s.chans[ch],
         table := s.table.Clear(), reader := Exited)
    case Oversize => s.(reader := Exited)
    case Close => s.(table := s.table.Shut())
  }

  ghost predicate IsRun(ss: seq<State>, ls: seq<Label>) {
    |ss| == |ls| + 1 && ss[0] == START &&
    forall i :: 0 <= i < |ls| ==> Enabled(ss[i], ls[i]) && ss[i + 1] == Next(ss[i], ls[i])
  }

  // ---- The invariant, call by call ----

  predicate Open(p: Phase) {
    p.Writing? || p.Waiting?
  }

  ghost predicate BeingDelivered(s: State, id: int)
    requires id in s.calls
  {
    s.reader.Delivering? && s.reader.ch == s.calls[id].ch
  }

  ghost predicate CallOk(s: State, id: int)
    requires id in s.calls
  {
    var call := s.calls[id];
    && id <= s.table.nextID
    && call.ch in s.chans
    && var c := s.chans[call.ch];
    // at most one of a message or a close, and only the call's own message
    && |c.sent| + (if c.closed then 1 else 0) <= 1
    && (c.sent != [] ==> c.sent[0].id == Some(id))
    && (call.phase.Dropping? ==> !call.phase.why.Response?)
    && (c.taken ==> call.phase.Returned?)
    // registered exactly while the channel is unused and nobody is about to use it
    && (id in s.table.pending ==>
          s.table.pending[id] == call.ch && c.Unused() && !BeingDelivered(s, id) &&
          !call.phase.Allocated? && !call.phase.Returned?)
    && (BeingDelivered(s, id) ==> c.sent == [] && !c.closed && s.reader.m.id == Some(id))
    && (call.phase.Allocated? ==> c.Unused() && !BeingDelivered(s, id))
    && (Open(call.phase) ==> id in s.table.pending || BeingDelivered(s, id) || c.Receivable())
    && (call.phase.Returned? && call.phase.outcome.Response? ==> call.phase.outcome.m.id == Some(id))
  }

  ghost predicate Inv(s: State) {
    && (forall id :: id in s.calls ==> CallOk(s, id))
    && (forall i, j :: i in s.calls && j in s.calls && i != j ==> s.calls[i].ch != s.calls[j].ch)
    && s.table.pending.Keys <= s.calls.Keys
    && (s.reader.Delivering? ==> exists id :: id in s.calls && s.calls[id].ch == s.reader.ch)
  }

  lemma FreshId(s: State)
    requires Inv(s)
    ensures s.table.nextID + 1 !in s.calls
  {
    forall id | id in s.calls
      ensures id <= s.table.nextID
    {
      assert CallOk(s, id);
    }
  }

  lemma BeginStep(s: State, l: Label, id: int)
    requires Inv(s) && Enabled(s, l) && l.Begin? && id in Next(s, l).calls
    ensures CallOk(Next(s, l), id)
  {
    FreshId(s);
    if id in s.calls {
      assert CallOk(s, id);
    } else if s.reader.Delivering? {
      var j :| j in s.calls && s.calls[j].ch == s.reader.ch;
      assert CallOk(s, j);
    }
  }

  lemma RouteStep(s: State, l: Label, id: int)
    requires Inv(s) && Enabled(s, l) && l.Route? && id in Next(s, l).calls
    ensures CallOk(Next(s, l), id)
  {
    assert CallOk(s, id);
    if l.m.id.Some? && l.m.id.value in s.table.pending {
      assert CallOk(s, l.m.id.value);
    }
  }

  lemma FailStep(s: State, l: Label, id: int)
    requires Inv(s) && Enabled(s, l) && l.FailPending? && id in Next(s, l).calls
    ensures CallOk(Next(s, l), id)
  {
    assert CallOk(s, id);
    if IsPending(s, s.calls[id].ch) {
      var j :| j in s.table.pending && s.table.pending[j] == s.calls[id].ch;
      assert CallOk(s, j);
    }
  }

  /** Steps of one call, and the reader's send. */
  lemma LocalStep(s: State, l: Label, id: int)
    requires Inv(s) && Enabled(s, l) && id in s.calls
    requires l.Register? || l.WriteOk? || l.WriteErr? || l.Cancel? || l.Drop? || l.Send? || l.Oversize? || l.Close?
    ensures CallOk(Next(s, l), id)
  {
    assert CallOk(s, id);
  }

  lemma ReceiveStep(s: State, l: Label, id: int)
    requires Inv(s) && Enabled(s, l) && l.Receive? && id in s.calls
    ensures CallOk(Next(s, l), id)
  {
    assert CallOk(s, id);
    assert CallOk(s, l.id);
  }

  lemma CallStep(s: State, l: Label, id: int)
    requires Inv(s) && Enabled(s, l) && id in Next(s, l).calls
    ensures CallOk(Next(s, l), id)
  {
    match l
    case Begin(_) => BeginStep(s, l, id);
    case Route(_) => RouteStep(s, l, id);
    case FailPending => FailStep(s, l, id);
    case Receive(_) => ReceiveStep(s, l, id);
    case _ => LocalStep(s, l, id);
  }

  lemma DistinctStep(s: State, l: Label)
    requires Inv(s) && Enabled(s, l)
    ensures forall i, j :: i in Next(s, l).calls && j in Next(s, l).calls && i != j ==>
              Next(s, l).calls[i].ch != Next(s, l).calls[j].ch
    ensures Next(s, l).table.pending.Keys <= Next(s, l).calls.Keys
  {
    if l.Begin? {
      forall i | i in s.calls
        ensures s.calls[i].ch != l.ch
      {
        assert CallOk(s, i);
      }
    }
  }

  lemma DeliveringStep(s: State, l: Label)
    requires Inv(s) && Enabled(s, l) && Next(s, l).reader.Delivering?
    ensures exists id :: id in Next(s, l).calls && Next(s, l).calls[id].ch == Next(s, l).reader.ch
  {
    if s.reader.Delivering? {
      var id :| id in s.calls && s.calls[id].ch == s.reader.ch;
      assert CallOk(s, id);
      FreshId(s);
      assert id in Next(s, l).calls;
    } else {
      assert CallOk(s, l.m.id.value);
      assert l.m.id.value in Next(s, l).calls;
    }
  }

  lemma InvStep(s: State, l: Label)
    requires Inv(s) && Enabled(s, l)
    ensures Inv(Next(s, l))
  {
    forall id | id in Next(s, l).calls
      ensures CallOk(Next(s, l), id)
    {
      CallStep(s, l, id);
    }
    DistinctStep(s, l);
    if Next(s, l).reader.Delivering? {
      DeliveringStep(s, l);
    }
  }

  lemma {:induction false} InvRun(ss: seq<State>, ls: seq<Label>, i: nat)
    requires IsRun(ss, ls) && i < |ss|
    ensures Inv(ss[i])
  {
    if i > 0 {
      InvRun(ss, ls, i - 1);
      InvStep(ss[i - 1], ls[i - 1]);
    }
  }

  // ---- What every run guarantees ----

  /** Each call's channel gets at most one of a message or a close, and a call that has returned
      is no longer registered. */
  lemma AtMostOneEvent(ss: seq<State>, ls: seq<Label>, i: nat, id: int)
    requires IsRun(ss, ls) && i < |ss| && id in ss[i].calls
    ensures ss[i].calls[id].ch in ss[i].chans
    ensures var c := ss[i].chans[ss[i].calls[id].ch]; |c.sent| + (if c.closed then 1 else 0) <= 1
    ensures ss[i].calls[id].phase.Returned? ==> id !in ss[i].table.pending
  {
    InvRun(ss, ls, i);
    assert CallOk(ss[i], id);
  }

  /** The reader's send neither blocks nor hits a closed channel, and failPending never closes a
      channel twice. */
  lemma ReaderNeverBlocks(ss: seq<State>, ls: seq<Label>, i: nat)
    requires IsRun(ss, ls) && i < |ss|
    ensures ss[i].reader.Delivering? ==> Enabled(ss[i], Send)
    ensures forall id :: id in ss[i].table.pending ==>
              ss[i].table.pending[id] in ss[i].chans && !ss[i].chans[ss[i].table.pending[id]].closed
  {
    InvRun(ss, ls, i);
    if ss[i].reader.Delivering? {
      var id :| id in ss[i].calls && ss[i].calls[id].ch == ss[i].reader.ch;
      assert CallOk(ss[i], id);
    }
    forall id | id in ss[i].table.pending
      ensures ss[i].table.pending[id] in ss[i].chans && !ss[i].chans[ss[i].table.pending[id]].closed
    {
      assert CallOk(ss[i], id);
    }
  }

  ghost predicate RoutedBefore(ls: seq<Label>, i: nat, m: Message) {
    exists j :: 0 <= j < i && j < |ls| && ls[j] == Route(m)
  }

  ghost predicate SentFromWire(ls: seq<Label>, i: nat, c: Channel) {
    forall k :: 0 <= k < |c.sent| ==> RoutedBefore(ls, i, c.sent[k])
  }

  /** Every message in a channel, in the reader's hands or returned came off the wire. */
  ghost predicate FromWire(ls: seq<Label>, i: nat, s: State) {
    && (s.reader.Delivering? ==> RoutedBefore(ls, i, s.reader.m))
    && (forall ch :: ch in s.chans ==> SentFromWire(ls, i, s.chans[ch]))
    && (forall id :: id in s.calls && s.calls[id].phase.Returned? && s.calls[id].phase.outcome.Response? ==>
          RoutedBefore(ls, i, s.calls[id].phase.outcome.m))
  }

  lemma RoutedLonger(ls: seq<Label>, i: nat)
    ensures forall m :: RoutedBefore(ls, i, m) ==> RoutedBefore(ls, i + 1, m)
  {
  }

  lemma ChannelFromWire(ls: seq<Label>, i: nat, s: State, ch: nat)
    requires i < |ls| && Enabled(s, ls[i]) && FromWire(ls, i, s) && ch in Next(s, ls[i]).chans
    ensures SentFromWire(ls, i + 1, Next(s, ls[i]).chans[ch])
  {
    RoutedLonger(ls, i);
    if ch in s.chans {
      assert SentFromWire(ls, i, s.chans[ch]);
    }
  }

  lemma CallFromWire(ls: seq<Label>, i: nat, s: State, id: int)
    requires i < |ls| && Inv(s) && Enabled(s, ls[i]) && FromWire(ls, i, s) && id in Next(s, ls[i]).calls
    ensures var phase := Next(s, ls[i]).calls[id].phase;
            phase.Returned? && phase.outcome.Response? ==> RoutedBefore(ls, i + 1, phase.outcome.m)
  {
    RoutedLonger(ls, i);
    if ls[i].Drop? {
      assert CallOk(s, ls[i].id);
    }
    if ls[i].Receive? {
      assert SentFromWire(ls, i, s.chans[s.calls[ls[i].id].ch]);
    }
  }

  lemma FromWireStep(ls: seq<Label>, i: nat, s: State)
    requires i < |ls| && Inv(s) && Enabled(s, ls[i]) && FromWire(ls, i, s)
    ensures FromWire(ls, i + 1, Next(s, ls[i]))
  {
    var s' := Next(s, ls[i]);
    RoutedLonger(ls, i);
    if s'.reader.Delivering? && s'.reader != s.reader {
      assert ls[i] == Route(s'.reader.m);
    }
    forall ch | ch in s'.chans
      ensures SentFromWire(ls, i + 1, s'.chans[ch])
    {
      ChannelFromWire(ls, i, s, ch);
    }
    forall id | id in s'.calls && s'.calls[id].phase.Returned? && s'.calls[id].phase.outcome.Response?
      ensures RoutedBefore(ls, i + 1, s'.calls[id].phase.outcome.m)
    {
      CallFromWire(ls, i, s, id);
    }
  }

  lemma {:induction false} FromWireRun(ss: seq<State>, ls: seq<Label>, i: nat)
    requires IsRun(ss, ls) && i < |ss|
    ensures FromWire(ls, i, ss[i])
  {
    if i > 0 {
      FromWireRun(ss, ls, i - 1);
      InvRun(ss, ls, i - 1);
      FromWireStep(ls, i - 1, ss[i - 1]);
    }
  }

  /** A call that returns a response returns one read off the wire earlier that carries its own id. */
  lemma OwnResponse(ss: seq<State>, ls: seq<Label>, i: nat, id: int, m: Message)
    requires IsRun(ss, ls) && i < |ss| && InPhase(ss[i], id, Returned(Response(m)))
    ensures m.id == Some(id)
    ensures exists j :: 0 <= j < i && ls[j] == Route(m)
  {
    InvRun(ss, ls, i);
    assert CallOk(ss[i], id);
    FromWireRun(ss, ls, i);
    assert RoutedBefore(ls, i, m);
  }

  /** The receive case of the call's select is ready. */
  predicate CanReceive(s: State, id: int) {
    Enabled(s, Receive(id))
  }

  /** Once the reader has returned, a waiting call can proceed on its channel exactly when it is
      no longer registered. */
  lemma ReleasedIff(ss: seq<State>, ls: seq<Label>, i: nat, id: int)
    requires IsRun(ss, ls) && i < |ss| && ss[i].reader.Exited? && InPhase(ss[i], id, Waiting)
    ensures CanReceive(ss[i], id) <==> id !in ss[i].table.pending
  {
    InvRun(ss, ls, i);
    assert CallOk(ss[i], id);
  }

  /** The reader is gone, and the call has left the pending table for good. */
  predicate Released(s: State, id: int) {
    s.reader.Exited? && id in s.calls && !s.calls[id].phase.Allocated? && id !in s.table.pending
  }

  /** The reader is gone, and if the call is ever to wait it will wait in vain. */
  predicate Late(s: State, id: int) {
    s.reader.Exited? && (id in s.calls && Open(s.calls[id].phase) ==> id in s.table.pending)
  }

  lemma StaysReleased(s: State, l: Label, id: int)
    requires Inv(s) && Enabled(s, l) && Released(s, id)
    ensures Released(Next(s, l), id)
  {
    FreshId(s);
  }

  lemma StaysLate(s: State, l: Label, id: int)
    requires Inv(s) && Enabled(s, l) && Late(s, id)
    ensures Late(Next(s, l), id)
  {
    FreshId(s);
  }

  lemma {:induction false} FateKept(ss: seq<State>, ls: seq<Label>, j: nat, i: nat, id: int)
    requires IsRun(ss, ls) && j <= i < |ss|
    ensures Released(ss[j], id) ==> Released(ss[i], id)
    ensures Late(ss[j], id) ==> Late(ss[i], id)
    decreases i
  {
    if j < i {
      FateKept(ss, ls, j, i - 1, id);
      InvRun(ss, ls, i - 1);
      if Released(ss[j], id) {
        StaysReleased(ss[i - 1], ls[i - 1], id);
      }
      if Late(ss[j], id) {
        StaysLate(ss[i - 1], ls[i - 1], id);
      }
    }
  }

  /** A call that waits after the reader has gone can proceed if its fate was to be released, and
      cannot if it came late. */
  lemma FateDecides(ss: seq<State>, ls: seq<Label>, j: nat, i: nat, id: int)
    requires IsRun(ss, ls) && j <= i < |ss| && InPhase(ss[i], id, Waiting)
    ensures Released(ss[j], id) ==> CanReceive(ss[i], id)
    ensures Late(ss[j], id) ==> !CanReceive(ss[i], id)
  {
    FateKept(ss, ls, j, i, id);
    if ss[i].reader.Exited? {
      ReleasedIff(ss, ls, i, id);
    }
  }

  predicate OpenAt(s: State, id: int) {
    id in s.calls && Open(s.calls[id].phase)
  }

  /** failPending releases exactly the calls registered before it and not yet over: a call that
      waits later can proceed if and only if it was writing or waiting at that moment. */
  lemma FailPendingReleases(ss: seq<State>, ls: seq<Label>, k: nat, i: nat, id: int)
    requires IsRun(ss, ls) && k < i < |ss| && ls[k].FailPending? && InPhase(ss[i], id, Waiting)
    ensures CanReceive(ss[i], id) <==> OpenAt(ss[k], id)
  {
    InvRun(ss, ls, k);
    FateDecides(ss, ls, k + 1, i, id);
  }

  /** A response to call `id` was routed after the call registered, within the first i steps. */
  ghost predicate Answered(ls: seq<Label>, i: nat, id: int) {
    exists a, j :: 0 <= a < j < i && j < |ls| && ls[a] == Register(id) && Answers(ls[j], id)
  }

  predicate Answers(l: Label, id: int) {
    l.Route? && l.m.name == "" && l.m.id == Some(id)
  }

  ghost predicate RegisteredBefore(ls: seq<Label>, i: nat, id: int) {
    exists a :: 0 <= a < i && a < |ls| && ls[a] == Register(id)
  }

  /** Registered or refused, and not yet returned. */
  predicate LiveAt(s: State, id: int) {
    id in s.calls && !s.calls[id].phase.Allocated? && !s.calls[id].phase.Returned?
  }

  /** While the reader runs, the table holds exactly the live calls that are not yet answered. */
  ghost predicate TableTells(ls: seq<Label>, i: nat, s: State, id: int) {
    && (id in s.calls && !s.calls[id].phase.Allocated? <==> RegisteredBefore(ls, i, id))
    && (LiveAt(s, id) && !s.reader.Exited? ==> (id in s.table.pending <==> !Answered(ls, i, id)))
  }

  lemma HistoryStep(ls: seq<Label>, i: nat, id: int)
    requires i < |ls|
    ensures RegisteredBefore(ls, i + 1, id) <==> RegisteredBefore(ls, i, id) || ls[i] == Register(id)
    ensures Answered(ls, i + 1, id) <==> Answered(ls, i, id) || (RegisteredBefore(ls, i, id) && Answers(ls[i], id))
  {
    if RegisteredBefore(ls, i, id) {
      var a :| 0 <= a < i && ls[a] == Register(id);
      assert Answers(ls[i], id) ==> Answered(ls, i + 1, id);
    }
    if Answered(ls, i + 1, id) {
      var a, j :| 0 <= a < j < i + 1 && ls[a] == Register(id) && Answers(ls[j], id);
      assert j == i ==> RegisteredBefore(ls, i, id);
    }
  }

  lemma NotAnsweredYet(ls: seq<Label>, i: nat, id: int)
    requires !RegisteredBefore(ls, i, id)
    ensures !Answered(ls, i, id)
  {
  }

  lemma TableTellsStep(ls: seq<Label>, i: nat, s: State, id: int)
    requires i < |ls| && Inv(s) && Enabled(s, ls[i]) && TableTells(ls, i, s, id)
    ensures TableTells(ls, i + 1, Next(s, ls[i]), id)
  {
    FreshId(s);
    HistoryStep(ls, i, id);
    if !RegisteredBefore(ls, i, id) {
      NotAnsweredYet(ls, i, id);
    }
  }

  lemma {:induction false} TableTellsRun(ss: seq<State>, ls: seq<Label>, i: nat, id: int)
    requires IsRun(ss, ls) && i < |ss|
    ensures TableTells(ls, i, ss[i], id)
  {
    if i > 0 {
      InvRun(ss, ls, i - 1);
      TableTellsRun(ss, ls, i - 1, id);
      TableTellsStep(ls, i - 1, ss[i - 1], id);
    }
  }

  /** The exit at an oversize frame releases nobody: a call that waits later can proceed if and
      only if it was open at that moment and its response had already been routed. */
  lemma OversizeReleases(ss: seq<State>, ls: seq<Label>, k: nat, i: nat, id: int)
    requires IsRun(ss, ls) && k < i < |ss| && ls[k].Oversize? && InPhase(ss[i], id, Waiting)
    ensures CanReceive(ss[i], id) <==> OpenAt(ss[k], id) && Answered(ls, k, id)
  {
    InvRun(ss, ls, k);
    TableTellsRun(ss, ls, k, id);
    FateDecides(ss, ls, k + 1, i, id);
  }

  // ---- How a call ends ----

  /** A request or a notification changes no call, whatever its id. */
  lemma RequestsIgnored(s: State, m: Message)
    requires Enabled(s, Route(m)) && m.name != ""
    ensures Next(s, Route(m)) == s
  {
  }

  /** `m` is the first response to call `id` routed after the call registered, within the first i steps. */
  ghost predicate FirstAnswer(ls: seq<Label>, i: nat, id: int, m: Message) {
    exists j :: 0 <= j < i && j < |ls| && ls[j] == Route(m) && IsFirstAnswer(ls, j, id)
  }

  ghost predicate IsFirstAnswer(ls: seq<Label>, j: nat, id: int)
    requires j < |ls|
  {
    Answers(ls[j], id) && RegisteredBefore(ls, j, id) && !Answered(ls, j, id)
  }

  /** The channel of an open call, or the reader, has the call's first response exactly when one has
      been routed; and a channel is closed only when the reader is gone. */
  ghost predicate ChannelTells(ls: seq<Label>, i: nat, s: State, id: int) {
    id in s.calls && s.calls[id].ch in s.chans ==>
      var c := s.chans[s.calls[id].ch];
      && (c.closed ==> s.reader.Exited?)
      && (OpenAt(s, id) ==> (Answered(ls, i, id) <==> c.sent != [] || BeingDelivered(s, id)))
      && (forall k :: 0 <= k < |c.sent| ==> FirstAnswer(ls, i, id, c.sent[k]))
      && (BeingDelivered(s, id) ==> FirstAnswer(ls, i, id, s.reader.m))
  }

  lemma FirstAnswerStep(ls: seq<Label>, i: nat, id: int)
    requires i < |ls|
    ensures forall m :: FirstAnswer(ls, i, id, m) ==> FirstAnswer(ls, i + 1, id, m)
    ensures ls[i].Route? && IsFirstAnswer(ls, i, id) ==> FirstAnswer(ls, i + 1, id, ls[i].m)
  {
  }

  lemma OthersDelivery(s: State, id: int, other: int)
    requires Inv(s) && id in s.calls && other in s.calls && id != other
    ensures s.calls[id].ch != s.calls[other].ch
  {
  }

  lemma ChannelTellsRoute(ls: seq<Label>, i: nat, s: State, id: int)
    requires i < |ls| && Inv(s) && Enabled(s, ls[i]) && ls[i].Route?
    requires TableTells(ls, i, s, id) && ChannelTells(ls, i, s, id)
    ensures ChannelTells(ls, i + 1, Next(s, ls[i]), id)
  {
    HistoryStep(ls, i, id);
    FirstAnswerStep(ls, i, id);
    if id in s.calls {
      assert CallOk(s, id);
      var m := ls[i].m;
      if m.id.Some? && m.id.value in s.table.pending {
        assert CallOk(s, m.id.value);
        if m.id.value != id {
          OthersDelivery(s, id, m.id.value);
        }
      }
    }
  }

  lemma ChannelTellsSend(ls: seq<Label>, i: nat, s: State, id: int)
    requires i < |ls| && Inv(s) && Enabled(s, ls[i]) && ls[i].Send?
    requires ChannelTells(ls, i, s, id)
    ensures ChannelTells(ls, i + 1, Next(s, ls[i]), id)
  {
    HistoryStep(ls, i, id);
    FirstAnswerStep(ls, i, id);
    if id in s.calls {
      assert CallOk(s, id);
    }
  }

  lemma ChannelTellsReceive(ls: seq<Label>, i: nat, s: State, id: int)
    requires i < |ls| && Inv(s) && Enabled(s, ls[i]) && ls[i].Receive?
    requires ChannelTells(ls, i, s, id)
    ensures ChannelTells(ls, i + 1, Next(s, ls[i]), id)
  {
    HistoryStep(ls, i, id);
    FirstAnswerStep(ls, i, id);
    if id in s.calls && ls[i].id != id {
      OthersDelivery(s, id, ls[i].id);
    }
  }

  lemma ChannelTellsRegister(ls: seq<Label>, i: nat, s: State, id: int)
    requires i < |ls| && Inv(s) && Enabled(s, ls[i]) && ls[i].Register?
    requires TableTells(ls, i, s, id) && ChannelTells(ls, i, s, id)
    ensures ChannelTells(ls, i + 1, Next(s, ls[i]), id)
  {
    HistoryStep(ls, i, id);
    FirstAnswerStep(ls, i, id);
    if id in s.calls {
      assert CallOk(s, id);
      if !RegisteredBefore(ls, i, id) {
        NotAnsweredYet(ls, i, id);
      }
    }
  }

  /** Steps that open no call and leave every channel alone. */
  lemma ChannelTellsQuiet(ls: seq<Label>, i: nat, s: State, id: int)
    requires i < |ls| && Inv(s) && Enabled(s, ls[i]) && ChannelTells(ls, i, s, id)
    requires var l := ls[i]; l.WriteOk? || l.WriteErr? || l.Cancel? || l.Drop? || l.Oversize? || l.Close?
    ensures ChannelTells(ls, i + 1, Next(s, ls[i]), id)
  {
    HistoryStep(ls, i, id);
    FirstAnswerStep(ls, i, id);
  }

  lemma ChannelTellsBegin(ls: seq<Label>, i: nat, s: State, id: int)
    requires i < |ls| && Inv(s) && Enabled(s, ls[i]) && ls[i].Begin?
    requires ChannelTells(ls, i, s, id)
    ensures ChannelTells(ls, i + 1, Next(s, ls[i]), id)
  {
    HistoryStep(ls, i, id);
    FirstAnswerStep(ls, i, id);
    FreshId(s);
    NewChannel(s, ls[i]);
    if id in s.calls {
      assert CallOk(s, id);
    }
  }

  /** No channel in use, or about to be sent to, is the new one. */
  lemma NewChannel(s: State, l: Label)
    requires Inv(s) && Enabled(s, l) && l.Begin?
    ensures s.reader.Delivering? ==> s.reader.ch != l.ch
    ensures forall id :: id in s.calls ==> s.calls[id].ch != l.ch
  {
    forall id | id in s.calls
      ensures s.calls[id].ch != l.ch
    {
      assert CallOk(s, id);
    }
  }

  lemma ChannelTellsFail(ls: seq<Label>, i: nat, s: State, id: int)
    requires i < |ls| && Inv(s) && Enabled(s, ls[i]) && ls[i].FailPending?
    requires ChannelTells(ls, i, s, id)
    ensures ChannelTells(ls, i + 1, Next(s, ls[i]), id)
  {
    HistoryStep(ls, i, id);
    FirstAnswerStep(ls, i, id);
    if id in s.calls {
      assert CallOk(s, id);
    }
  }

  lemma {:induction false} ChannelTellsRun(ss: seq<State>, ls: seq<Label>, i: nat, id: int)
    requires IsRun(ss, ls) && i < |ss|
    ensures ChannelTells(ls, i, ss[i], id)
  {
    if i > 0 {
      var s := ss[i - 1];
      InvRun(ss, ls, i - 1);
      TableTellsRun(ss, ls, i - 1, id);
      ChannelTellsRun(ss, ls, i - 1, id);
      match ls[i - 1]
      case Route(_) => ChannelTellsRoute(ls, i - 1, s, id);
      case FailPending => ChannelTellsFail(ls, i - 1, s, id);
      case Begin(_) => ChannelTellsBegin(ls, i - 1, s, id);
      case Register(_) => ChannelTellsRegister(ls, i - 1, s, id);
      case Send => ChannelTellsSend(ls, i - 1, s, id);
      case Receive(_) => ChannelTellsReceive(ls, i - 1, s, id);
      case _ => ChannelTellsQuiet(ls, i - 1, s, id);
    }
  }

  /** A call that takes its channel returns the first response routed after it registered if there
      was one, and otherwise learns that the connection is gone. */
  lemma ReceiveReturns(ss: seq<State>, ls: seq<Label>, i: nat, id: int)
    requires IsRun(ss, ls) && i < |ls| && ls[i] == Receive(id)
    ensures if Answered(ls, i, id) then
              exists m :: FirstAnswer(ls, i, id, m) && InPhase(ss[i + 1], id, Returned(Response(m)))
            else InPhase(ss[i + 1], id, Returned(Disconnected))
  {
    InvRun(ss, ls, i);
    assert CallOk(ss[i], id);
    ChannelTellsRun(ss, ls, i, id);
  }

  ghost predicate Took(ls: seq<Label>, i: nat, l: Label) {
    exists j :: 0 <= j < i && j < |ls| && ls[j] == l
  }

  ghost predicate ClosedBeforeRegister(ls: seq<Label>, i: nat, id: int) {
    exists a, b :: 0 <= a < b < i && b < |ls| && ls[a] == Close && ls[b] == Register(id)
  }

  /** Why the call returned, or is about to. */
  predicate EndsWith(s: State, id: int, why: Outcome) {
    InPhase(s, id, Dropping(why)) || InPhase(s, id, Returned(why))
  }

  predicate HasReceived(s: State, id: int) {
    id in s.calls &&
    match s.calls[id].phase
    case Dropping(why) => why.Response? || why.Disconnected?
    case Returned(why) => why.Response? || why.Disconnected?
    case _ => false
  }

  lemma TookStep(ls: seq<Label>, i: nat, l: Label)
    requires i < |ls|
    ensures Took(ls, i + 1, l) <==> Took(ls, i, l) || ls[i] == l
  {
  }

  lemma ClosedStep(ls: seq<Label>, i: nat, id: int)
    requires i < |ls|
    ensures ClosedBeforeRegister(ls, i + 1, id) <==>
            ClosedBeforeRegister(ls, i, id) || (Took(ls, i, Close) && ls[i] == Register(id))
  {
    if ClosedBeforeRegister(ls, i + 1, id) {
      var a, b :| 0 <= a < b < i + 1 && ls[a] == Close && ls[b] == Register(id);
      assert b == i ==> Took(ls, i, Close);
    }
  }

  ghost predicate ClosedTells(ls: seq<Label>, i: nat, s: State, id: int) {
    && (s.table.closed <==> Took(ls, i, Close))
    && (EndsWith(s, id, PeerClosed) <==> ClosedBeforeRegister(ls, i, id))
  }

  lemma ClosedTellsStep(ls: seq<Label>, i: nat, s: State, id: int)
    requires i < |ls| && Inv(s) && Enabled(s, ls[i]) && ClosedTells(ls, i, s, id)
    ensures ClosedTells(ls, i + 1, Next(s, ls[i]), id)
  {
    FreshId(s);
    TookStep(ls, i, Close);
    ClosedStep(ls, i, id);
  }

  ghost predicate FailureTells(ls: seq<Label>, i: nat, s: State, id: int) {
    EndsWith(s, id, WriteFailed) <==> Took(ls, i, WriteErr(id))
  }

  lemma FailureTellsStep(ls: seq<Label>, i: nat, s: State, id: int)
    requires i < |ls| && Inv(s) && Enabled(s, ls[i]) && FailureTells(ls, i, s, id)
    ensures FailureTells(ls, i + 1, Next(s, ls[i]), id)
  {
    FreshId(s);
    TookStep(ls, i, WriteErr(id));
  }

  ghost predicate CancelTells(ls: seq<Label>, i: nat, s: State, id: int) {
    EndsWith(s, id, Cancelled) <==> Took(ls, i, Cancel(id))
  }

  lemma CancelTellsStep(ls: seq<Label>, i: nat, s: State, id: int)
    requires i < |ls| && Inv(s) && Enabled(s, ls[i]) && CancelTells(ls, i, s, id)
    ensures CancelTells(ls, i + 1, Next(s, ls[i]), id)
  {
    FreshId(s);
    TookStep(ls, i, Cancel(id));
  }

  ghost predicate ReceiveTells(ls: seq<Label>, i: nat, s: State, id: int) {
    HasReceived(s, id) <==> Took(ls, i, Receive(id))
  }

  lemma ReceiveTellsStep(ls: seq<Label>, i: nat, s: State, id: int)
    requires i < |ls| && Inv(s) && Enabled(s, ls[i]) && ReceiveTells(ls, i, s, id)
    ensures ReceiveTells(ls, i + 1, Next(s, ls[i]), id)
  {
    FreshId(s);
    TookStep(ls, i, Receive(id));
  }

  /** A call ends for the reason its run gives: refused if the peer was closed when it registered,
      failed by its write, cancelled by its context, or with what its channel gave. */
  lemma {:induction false} OutcomeTells(ss: seq<State>, ls: seq<Label>, i: nat, id: int)
    requires IsRun(ss, ls) && i < |ss|
    ensures ClosedTells(ls, i, ss[i], id) && FailureTells(ls, i, ss[i], id)
    ensures CancelTells(ls, i, ss[i], id) && ReceiveTells(ls, i, ss[i], id)
  {
    if i > 0 {
      OutcomeTells(ss, ls, i - 1, id);
      InvRun(ss, ls, i - 1);
      ClosedTellsStep(ls, i - 1, ss[i - 1], id);
      FailureTellsStep(ls, i - 1, ss[i - 1], id);
      CancelTellsStep(ls, i - 1, ss[i - 1], id);
      ReceiveTellsStep(ls, i - 1, ss[i - 1], id);
    }
  }

  /** A call still registered when the reader is gone is stuck for as long as it is not cancelled. */
  lemma {:induction false} StuckForever(ss: seq<State>, ls: seq<Label>, i: nat, j: nat, id: int)
    requires IsRun(ss, ls) && i <= j < |ss| && ss[i].reader.Exited?
    requires InPhase(ss[i], id, Waiting) && id in ss[i].table.pending
    requires forall k :: i <= k < j ==> ls[k] != Cancel(id)
    ensures Stuck(ss[j], id) && id in ss[j].table.pending
    decreases j
  {
    InvRun(ss, ls, j);
    if i < j {
      StuckForever(ss, ls, i, j - 1, id);
      InvRun(ss, ls, j - 1);
      FreshId(ss[j - 1]);
    }
    ReleasedIff(ss, ls, j, id);
  }

  ghost predicate Stuck(s: State, id: int) {
    s.reader.Exited? && InPhase(s, id, Waiting) && !CanReceive(s, id)
  }

  /** One way to get stuck: calling after failPending on a peer that nobody closed. */
  lemma StuckAfterEof() returns (ss: seq<State>)
    ensures IsRun(ss, [FailPending, Begin(0), Register(1), WriteOk(1)]) && Stuck(ss[4], 1)
  {
    var ls := [FailPending, Begin(0), Register(1), WriteOk(1)];
    var s1 := Next(START, ls[0]);
    var s2 := Next(s1, ls[1]);
    var s3 := Next(s2, ls[2]);
    var s4 := Next(s3, ls[3]);
    ss := [START, s1, s2, s3, s4];
  }

  /** One call, written and waiting. */
  const WAITS := State(
    Table(1, map[1 := 0], false), map[0 := Channel([], false, false)], map[1 := Call(0, Waiting)], Reading)

  lemma CallWaits() returns (s1: State, s2: State)
    ensures Enabled(START, Begin(0)) && s1 == Next(START, Begin(0))
    ensures Enabled(s1, Register(1)) && s2 == Next(s1, Register(1))
    ensures Enabled(s2, WriteOk(1)) && Next(s2, WriteOk(1)) == WAITS
  {
    s1 := Next(START, Begin(0));
    s2 := Next(s1, Register(1));
  }

  /** The other: having a call outstanding when a frame is over the size limit. */
  lemma StuckAfterOversize() returns (ss: seq<State>)
    ensures IsRun(ss, [Begin(0), Register(1), WriteOk(1), Oversize]) && Stuck(ss[4], 1)
  {
    var s1, s2 := CallWaits();
    ss := [START, s1, s2, WAITS, Next(WAITS, Oversize)];
  }

  lemma ResponseTaken(m: Message) returns (s4: State, s5: State, s6: State)
    requires m.name == "" && m.id == Some(1)
    ensures Enabled(WAITS, Route(m)) && s4 == Next(WAITS, Route(m))
    ensures Enabled(s4, Send) && s5 == Next(s4, Send)
    ensures Enabled(s5, Receive(1)) && s6 == Next(s5, Receive(1)) && InPhase(s6, 1, Returned(Response(m)))
  {
    s4 := Next(WAITS, Route(m));
    s5 := Next(s4, Send);
    s6 := Next(s5, Receive(1));
  }

  /** A call that succeeds. */
  lemma CallSucceeds(m: Message) returns (ss: seq<State>)
    requires m.name == "" && m.id == Some(1)
    ensures IsRun(ss, [Begin(0), Register(1), WriteOk(1), Route(m), Send, Receive(1)])
    ensures InPhase(ss[6], 1, Returned(Response(m)))
  {
    var s1, s2 := CallWaits();
    var s4, s5, s6 := ResponseTaken(m);
    ss := [START, s1, s2, WAITS, s4, s5, s6];
  }
}
