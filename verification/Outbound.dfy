/** The server's outbound side: the bounded queue and single writer of each connection in
    sidecar/internal/rpc/conn.go, and the broadcast of sidecar/internal/rpc/server.go. */
module Outbound {
  import opened Framing
  import opened ServerReader

  /** Depth of a connection's queue. */
  const SEND_BUFFER: nat := 256

  type ConnId = nat
  type Producer = nat

  /** A line handed to `send` by the `call`-th sending call of a producer. A reply counts as a
      call with one target. */
  datatype Entry = Entry(producer: Producer, call: nat, line: Frame)

  /** The writeLoop goroutine: at its select, holding a line taken off the queue, or returned,
      possibly with a line whose write failed. */
  datatype Writer = AtSelect | Holding(entry: Entry) | Returned(lost: seq<Entry>)

  /** `accepted` and `written` are the lines that entered the queue and that were written. */
  datatype Conn = Conn(queue: seq<Entry>, done: bool, writer: Writer, accepted: seq<Entry>, written: seq<Entry>) {
    function Enqueue(e: Entry): Conn {
      this.(queue := queue + [e], accepted := accepted + [e])
    }
    function Take(): Conn
      requires queue != []
    {
      this.(queue := queue[1..], writer := Holding(queue[0]))
    }
    function Wrote(): Conn
      requires writer.Holding?
    {
      this.(written := written + [writer.entry], writer := AtSelect)
    }
    function WriteFailed(): Conn
      requires writer.Holding?
    {
      this.(done := true, writer := Returned([writer.entry]))
    }
    function Exit(): Conn { this.(writer := Returned([])) }
    function Close(): Conn { this.(done := true) }

    function InFlight(): seq<Entry> {
      match writer
      case AtSelect => []
      case Holding(e) => [e]
      case Returned(lost) => lost
    }

    /** Nothing accepted is lost, duplicated or reordered, and the queue is bounded. */
    predicate Consistent() {
      accepted == written + InFlight() + queue && |queue| <= SEND_BUFFER &&
      (writer.Returned? ==> done && |writer.lost| <= 1)
    }
  }

  const NEW_CONN := Conn([], false, AtSelect, [], [])

  // ---- conn.go ----

  datatype SendResult = Queued | Abandoned | Blocks

  class Connection {
    var sendCh: seq<Entry>
    var done: bool
    var writer: Writer
    ghost var accepted: seq<Entry>
    ghost var written: seq<Entry>

    constructor ()
      ensures View() == NEW_CONN
    {
      sendCh, done, writer := [], false, AtSelect;
      accepted, written := [], [];
    }

    ghost function View(): Conn
      reads this
    {
      Conn(sendCh, done, writer, accepted, written)
    }

    /** `send`: the select takes a ready case; `preferDone` settles it when both are ready. */
    method Send(e: Entry, preferDone: bool) returns (r: SendResult)
      requires View().Consistent()
      modifies this
      ensures View().Consistent()
      ensures r.Queued? ==> |old(sendCh)| < 256 && View() == old(View()).Enqueue(e)
      ensures r.Abandoned? ==> old(done) && View() == old(View())
      ensures r.Blocks? <==> |old(sendCh)| == 256 && !old(done)
      ensures r.Blocks? ==> View() == old(View())
    {
      if |sendCh| < SEND_BUFFER && !(done && preferDone) {
        sendCh := sendCh + [e];
        accepted := accepted + [e];
        return Queued;
      }
      return if done then Abandoned else Blocks;
    }

    /** One turn of writeLoop's select; false when neither case is ready. */
    method Select(preferDone: bool) returns (moved: bool)
      requires View().Consistent() && writer.AtSelect?
      modifies this
      ensures View().Consistent()
      ensures moved <==> old(done) || old(sendCh) != []
      ensures View() == (if !moved then old(View())
                         else if old(done) && (preferDone || old(sendCh) == []) then old(View()).Exit()
                         else old(View()).Take())
    {
      if done && (preferDone || sendCh == []) {
        writer := Returned([]);
        return true;
      }
      if sendCh == [] {
        return false;
      }
      writer := Holding(sendCh[0]);
      sendCh := sendCh[1..];
      return true;
    }

    /** The write of the line taken; `ok` is whether the socket took the whole frame. */
    method Write(ok: bool)
      requires View().Consistent() && writer.Holding?
      modifies this
      ensures View().Consistent()
      ensures View() == if ok then old(View()).Wrote() else old(View()).WriteFailed()
    {
      if ok {
        written := written + [writer.entry];
        writer := AtSelect;
      } else {
        Close();
        writer := Returned([writer.entry]);
      }
    }

    method Close()
      modifies this`done
      ensures View() == old(View()).Close()
    {
      done := true;
    }
  }

  /** The frame is built in fresh memory: `line`, which other connections share, is only read. */
  method BuildFrame(line: array<Byte>) returns (frame: array<Byte>)
    ensures fresh(frame)
    ensures frame[..] == line[..] + [10]
  {
    frame := new Byte[line.Length + 1];
    for i := 0 to line.Length
      invariant frame[..i] == line[..i]
    {
      frame[i] := line[i];
    }
    frame[line.Length] := NL;
  }

  // ---- All connections and producers together ----

  /** A producer between calls, or inside call `call` with the connections it still has to send
      to out of the `targets` it started with. */
  datatype Sender = Between(next: nat) | Inside(call: nat, line: Frame, targets: set<ConnId>, waiting: set<ConnId>)

  datatype System = System(conns: map<ConnId, Conn>, registered: set<ConnId>, senders: map<Producer, Sender>)

  datatype Label =
    | AddConn(c: ConnId)
    | RemoveConn(c: ConnId)
    | StartNotify(p: Producer, line: Frame)
    | StartReply(p: Producer, line: Frame, c: ConnId)
    | Deliver(p: Producer, c: ConnId)
    | Abandon(p: Producer, c: ConnId)
    | Finish(p: Producer)
    | TakeLine(c: ConnId)
    | WriteOk(c: ConnId)
    | WriteErr(c: ConnId)
    | WriterExit(c: ConnId)
    | CloseConn(c: ConnId)

  function SenderOf(s: System, p: Producer): Sender {
    if p in s.senders then s.senders[p] else Between(0)
  }

  predicate Awaits(s: System, p: Producer, c: ConnId) {
    SenderOf(s, p).Inside? && c in SenderOf(s, p).waiting && c in s.conns
  }

  predicate Enabled(s: System, l: Label) {
    match l
    case AddConn(c) => c !in s.conns
    case RemoveConn(c) => c in s.conns
    case StartNotify(p, _) => SenderOf(s, p).Between?
    case StartReply(p, _, c) => SenderOf(s, p).Between? && c in s.conns
    case Deliver(p, c) => Awaits(s, p, c) && |s.conns[c].queue| < SEND_BUFFER
    case Abandon(p, c) => Awaits(s, p, c) && s.conns[c].done
    case Finish(p) => SenderOf(s, p).Inside? && SenderOf(s, p).waiting == {}
    case TakeLine(c) => c in s.conns && s.conns[c].writer.AtSelect? && s.conns[c].queue != []
    case WriteOk(c) => c in s.conns && s.conns[c].writer.Holding?
    case WriteErr(c) => c in s.conns && s.conns[c].writer.Holding?
    case WriterExit(c) => c in s.conns && s.conns[c].writer.AtSelect? && s.conns[c].done
    case CloseConn(c) => c in s.conns
  }

  function Next(s: System, l: Label): System
    requires Enabled(s, l)
  {
    match l
    case AddConn(c) => s.(conns := s.conns[c := NEW_CONN], registered := s.registered + {c})
    case RemoveConn(c) => s.(registered := s.registered - {c})
    case StartNotify(p, line) =>
      s.(senders := s.senders[p := Inside(SenderOf(s, p).next, line, s.registered, s.registered)])
    case StartReply(p, line, c) => s.(senders := s.senders[p := Inside(SenderOf(s, p).next, line, {c}, {c})])
    case Deliver(p, c) =>
      var snd := SenderOf(s, p);
      s.(conns := s.conns[c := s.conns[c].Enqueue(Entry(p, snd.call, snd.line))],
         senders := s.senders[p := snd.(waiting := snd.waiting - {c})])
    case Abandon(p, c) =>
      var snd := SenderOf(s, p);
      s.(senders := s.senders[p := snd.(waiting := snd.waiting - {c})])
    case Finish(p) => s.(senders := s.senders[p := Between(SenderOf(s, p).call + 1)])
    case TakeLine(c) => s.(conns := s.conns[c := s.conns[c].Take()])
    case WriteOk(c) => s.(conns := s.conns[c := s.conns[c].Wrote()])
    case WriteErr(c) => s.(conns := s.conns[c := s.conns[c].WriteFailed()])
    case WriterExit(c) => s.(conns := s.conns[c := s.conns[c].Exit()])
    case CloseConn(c) => s.(conns := s.conns[c := s.conns[c].Close()])
  }

  const START := System(map[], {}, map[])

  /** States ss[0], ss[1], ... reached by taking the steps ls[0], ls[1], ... */
  ghost predicate IsRun(ss: seq<System>, ls: seq<Label>) {
    |ss| == |ls| + 1 && ss[0] == START &&
    forall i :: 0 <= i < |ls| ==> Enabled(ss[i], ls[i]) && ss[i + 1] == Next(ss[i], ls[i])
  }

  // ---- Invariants ----

  /** The entry was sent by a call of its producer that is over, or by the current one, which is
      then done with connection `c`. */
  ghost predicate Sent(s: System, c: ConnId, e: Entry) {
    match SenderOf(s, e.producer)
    case Between(next) => e.call < next
    case Inside(call, line, targets, waiting) => e.call < call || (e.call == call && c !in waiting)
  }

  ghost predicate InCallOrder(accepted: seq<Entry>) {
    forall i, j :: 0 <= i < j < |accepted| && accepted[i].producer == accepted[j].producer ==>
                     accepted[i].call < accepted[j].call
  }

  ghost predicate ConnOk(s: System, c: ConnId)
    requires c in s.conns
  {
    && s.conns[c].Consistent()
    && InCallOrder(s.conns[c].accepted)
    && forall k :: 0 <= k < |s.conns[c].accepted| ==> Sent(s, c, s.conns[c].accepted[k])
  }

  /** A target the current call is done with has the line, or is closed. */
  ghost predicate Reached(s: System, p: Producer, c: ConnId) {
    var snd := SenderOf(s, p);
    snd.Inside? && c in snd.targets - snd.waiting ==>
      c in s.conns && (s.conns[c].done || Entry(p, snd.call, snd.line) in s.conns[c].accepted)
  }

  ghost predicate Inv(s: System) {
    && s.registered <= s.conns.Keys
    && (forall c :: c in s.conns ==> ConnOk(s, c))
    && (forall p, c :: Reached(s, p, c))
    && (forall p :: TargetsKnown(s, p))
  }

  ghost predicate TargetsKnown(s: System, p: Producer) {
    SenderOf(s, p).Inside? ==> SenderOf(s, p).waiting <= SenderOf(s, p).targets <= s.conns.Keys
  }

  lemma ConsistentStep(s: System, l: Label, c: ConnId)
    requires Enabled(s, l) && c in Next(s, l).conns && (c in s.conns ==> s.conns[c].Consistent())
    ensures Next(s, l).conns[c].Consistent()
  {
  }

  /** The accepted lines only grow, by the line delivered in this step. */
  lemma AcceptedStep(s: System, l: Label, c: ConnId)
    requires Enabled(s, l) && c in s.conns
    ensures c in Next(s, l).conns
    ensures Next(s, l).conns[c].accepted ==
            if l.Deliver? && l.c == c then
              s.conns[c].accepted + [Entry(l.p, SenderOf(s, l.p).call, SenderOf(s, l.p).line)]
            else s.conns[c].accepted
  {
  }

  lemma SentStep(s: System, l: Label, c: ConnId, e: Entry)
    requires Enabled(s, l) && c in s.conns
    requires Sent(s, c, e) || (l.Deliver? && l.c == c && e == Entry(l.p, SenderOf(s, l.p).call, SenderOf(s, l.p).line))
    ensures Sent(Next(s, l), c, e)
  {
  }

  lemma ConnStep(s: System, l: Label, c: ConnId)
    requires Inv(s) && Enabled(s, l) && c in Next(s, l).conns
    ensures ConnOk(Next(s, l), c)
  {
    ConsistentStep(s, l, c);
    if c in s.conns {
      var was, now := s.conns[c].accepted, Next(s, l).conns[c].accepted;
      assert ConnOk(s, c);
      AcceptedStep(s, l, c);
      forall k | 0 <= k < |now|
        ensures Sent(Next(s, l), c, now[k])
      {
        SentStep(s, l, c, now[k]);
      }
      assert forall k :: 0 <= k < |was| ==> Sent(s, c, was[k]);
    }
  }

  lemma ReachedStep(s: System, l: Label, p: Producer, c: ConnId)
    requires Inv(s) && Enabled(s, l)
    ensures Reached(Next(s, l), p, c)
  {
    assert Reached(s, p, c);
  }

  lemma InvStep(s: System, l: Label)
    requires Inv(s) && Enabled(s, l)
    ensures Inv(Next(s, l))
  {
    var t := Next(s, l);
    forall c | c in t.conns
      ensures ConnOk(t, c)
    {
      ConnStep(s, l, c);
    }
    forall p
      ensures TargetsKnown(t, p)
    {
      assert TargetsKnown(s, p);
    }
    forall p, c
      ensures Reached(t, p, c)
    {
      ReachedStep(s, l, p, c);
    }
  }

  /** Every state of every run is consistent. */
  lemma {:induction false} InvRun(ss: seq<System>, ls: seq<Label>, i: nat)
    requires IsRun(ss, ls) && i < |ss|
    ensures Inv(ss[i])
  {
    if i > 0 {
      InvRun(ss, ls, i - 1);
      InvStep(ss[i - 1], ls[i - 1]);
    }
  }

  // ---- What every run guarantees ----

  /** At every step, for every connection: accepted lines are exactly those written, then the one
      in flight, then those queued; the queue holds at most 256; and the lines of any one
      producer were accepted in the order of its calls, at most one per call. */
  lemma OutboundSafety(ss: seq<System>, ls: seq<Label>, i: nat, c: ConnId)
    requires IsRun(ss, ls) && i < |ss| && c in ss[i].conns
    ensures var conn := ss[i].conns[c];
            conn.accepted == conn.written + conn.InFlight() + conn.queue && |conn.queue| <= 256 &&
            InCallOrder(conn.accepted)
  {
    InvRun(ss, ls, i);
    assert ConnOk(ss[i], c);
  }

  // ---- Which connections a call reaches, read off the run ----

  /** The connection was added in one of the first i steps and not removed since. */
  ghost predicate OpenConn(ls: seq<Label>, i: nat, c: ConnId) {
    exists a :: 0 <= a < i && a < |ls| && ls[a] == AddConn(c) && KeptSince(ls, a, i, c)
  }

  ghost predicate KeptSince(ls: seq<Label>, a: nat, i: nat, c: ConnId) {
    forall k :: a < k < i && k < |ls| ==> ls[k] != RemoveConn(c)
  }

  lemma OpenConnStep(ls: seq<Label>, i: nat, c: ConnId)
    requires i < |ls|
    ensures OpenConn(ls, i + 1, c) <==> ls[i] == AddConn(c) || (OpenConn(ls, i, c) && ls[i] != RemoveConn(c))
  {
    if OpenConn(ls, i, c) && ls[i] != RemoveConn(c) {
      var a :| 0 <= a < i && ls[a] == AddConn(c) && KeptSince(ls, a, i, c);
      assert KeptSince(ls, a, i + 1, c);
    }
    if ls[i] == AddConn(c) {
      assert KeptSince(ls, i, i + 1, c);
    }
    if OpenConn(ls, i + 1, c) && ls[i] != AddConn(c) {
      var a :| 0 <= a < i + 1 && ls[a] == AddConn(c) && KeptSince(ls, a, i + 1, c);
      assert KeptSince(ls, a, i, c);
    }
  }

  lemma {:induction false} RegisteredIff(ss: seq<System>, ls: seq<Label>, i: nat, c: ConnId)
    requires IsRun(ss, ls) && i < |ss|
    ensures c in ss[i].registered <==> OpenConn(ls, i, c)
  {
    if i > 0 {
      RegisteredIff(ss, ls, i - 1, c);
      OpenConnStep(ls, i - 1, c);
      RegisteredStep(ss[i - 1], ls[i - 1], c);
    }
  }

  lemma RegisteredStep(s: System, l: Label, c: ConnId)
    requires Enabled(s, l)
    ensures c in Next(s, l).registered <==> l == AddConn(c) || (c in s.registered && l != RemoveConn(c))
  {
  }

  /** The step starts a call of `p` that is to bring `line` to connection `c`: a broadcast while the
      connection is open, or a reply to it. */
  ghost predicate Targeted(ls: seq<Label>, j: nat, p: Producer, line: Frame, c: ConnId)
    requires j < |ls|
  {
    (ls[j] == StartNotify(p, line) && OpenConn(ls, j, c)) || ls[j] == StartReply(p, line, c)
  }

  predicate Starts(l: Label, p: Producer, line: Frame) {
    (l.StartNotify? && l.p == p && l.line == line) || (l.StartReply? && l.p == p && l.line == line)
  }

  predicate StartsFor(l: Label, p: Producer) {
    (l.StartNotify? || l.StartReply?) && l.p == p
  }

  /** Calls of `p` started in the first i steps. */
  function Calls(ls: seq<Label>, i: nat, p: Producer): nat
    requires i <= |ls|
  {
    if i == 0 then 0 else Calls(ls, i - 1, p) + if StartsFor(ls[i - 1], p) then 1 else 0
  }

  /** Step j started the call numbered `call`, with this line and these targets. */
  ghost predicate StartedAt(ls: seq<Label>, j: nat, p: Producer, call: nat, line: Frame, targets: set<ConnId>) {
    && j < |ls| && Starts(ls[j], p, line) && Calls(ls, j, p) == call
    && forall c :: c in targets <==> Targeted(ls, j, p, line, c)
  }

  ghost predicate SenderTells(ls: seq<Label>, i: nat, s: System, p: Producer)
    requires i <= |ls|
  {
    match SenderOf(s, p)
    case Between(next) => next == Calls(ls, i, p)
    case Inside(call, line, targets, waiting) =>
      call + 1 == Calls(ls, i, p) && waiting <= targets &&
      exists j :: 0 <= j < i && StartedAt(ls, j, p, call, line, targets)
  }

  /** An accepted line was sent by a call that was to bring it there. */
  ghost predicate EntryTells(ls: seq<Label>, i: nat, c: ConnId, e: Entry)
    requires i <= |ls|
  {
    exists j :: 0 <= j < i && Targeted(ls, j, e.producer, e.line, c) && Calls(ls, j, e.producer) == e.call
  }

  ghost predicate AcceptedTells(ls: seq<Label>, i: nat, s: System, c: ConnId)
    requires i <= |ls|
  {
    c in s.conns ==>
      forall k :: 0 <= k < |s.conns[c].accepted| ==> EntryTells(ls, i, c, s.conns[c].accepted[k])
  }

  lemma StartTells(ss: seq<System>, ls: seq<Label>, i: nat, p: Producer)
    requires IsRun(ss, ls) && i < |ls| && StartsFor(ls[i], p) && SenderTells(ls, i, ss[i], p)
    ensures SenderTells(ls, i + 1, ss[i + 1], p)
  {
    forall c
      ensures c in ss[i].registered <==> OpenConn(ls, i, c)
    {
      RegisteredIff(ss, ls, i, c);
    }
    var snd := SenderOf(ss[i + 1], p);
    assert StartedAt(ls, i, p, snd.call, snd.line, snd.targets);
  }

  lemma OtherTells(ls: seq<Label>, i: nat, s: System, p: Producer)
    requires i < |ls| && Enabled(s, ls[i]) && !StartsFor(ls[i], p) && SenderTells(ls, i, s, p)
    ensures SenderTells(ls, i + 1, Next(s, ls[i]), p)
  {
    var snd := SenderOf(s, p);
    if snd.Inside? {
      var j :| 0 <= j < i && StartedAt(ls, j, p, snd.call, snd.line, snd.targets);
      assert j < i + 1 && StartedAt(ls, j, p, snd.call, snd.line, snd.targets);
    }
  }

  lemma {:induction false} SenderRun(ss: seq<System>, ls: seq<Label>, i: nat, p: Producer)
    requires IsRun(ss, ls) && i < |ss|
    ensures SenderTells(ls, i, ss[i], p)
  {
    if i > 0 {
      SenderRun(ss, ls, i - 1, p);
      if StartsFor(ls[i - 1], p) {
        StartTells(ss, ls, i - 1, p);
      } else {
        OtherTells(ls, i - 1, ss[i - 1], p);
      }
    }
  }

  lemma EntryKept(ls: seq<Label>, i: nat, c: ConnId, e: Entry)
    requires i < |ls| && EntryTells(ls, i, c, e)
    ensures EntryTells(ls, i + 1, c, e)
  {
  }

  lemma DeliveredTells(ls: seq<Label>, i: nat, s: System, p: Producer, c: ConnId)
    requires i < |ls| && ls[i] == Deliver(p, c) && Enabled(s, ls[i]) && SenderTells(ls, i, s, p)
    ensures EntryTells(ls, i, c, Entry(p, SenderOf(s, p).call, SenderOf(s, p).line))
  {
    var snd := SenderOf(s, p);
    var j :| 0 <= j < i && StartedAt(ls, j, p, snd.call, snd.line, snd.targets);
    assert Targeted(ls, j, p, snd.line, c);
  }

  lemma AcceptedStepTells(ls: seq<Label>, i: nat, s: System, c: ConnId)
    requires i < |ls| && Enabled(s, ls[i]) && AcceptedTells(ls, i, s, c)
    requires ls[i].Deliver? && ls[i].c == c ==> SenderTells(ls, i, s, ls[i].p)
    ensures AcceptedTells(ls, i + 1, Next(s, ls[i]), c)
  {
    if c in s.conns {
      var l := ls[i];
      AcceptedStep(s, l, c);
      var was, now := s.conns[c].accepted, Next(s, l).conns[c].accepted;
      if l.Deliver? && l.c == c {
        DeliveredTells(ls, i, s, l.p, c);
      }
      forall k | 0 <= k < |now|
        ensures EntryTells(ls, i + 1, c, now[k])
      {
        assert k < |was| ==> EntryTells(ls, i, c, was[k]);
        EntryKept(ls, i, c, now[k]);
      }
    }
  }

  lemma {:induction false} AcceptedRun(ss: seq<System>, ls: seq<Label>, i: nat, c: ConnId)
    requires IsRun(ss, ls) && i < |ss|
    ensures AcceptedTells(ls, i, ss[i], c)
  {
    if i > 0 {
      AcceptedRun(ss, ls, i - 1, c);
      if ls[i - 1].Deliver? {
        SenderRun(ss, ls, i - 1, ls[i - 1].p);
      }
      AcceptedStepTells(ls, i - 1, ss[i - 1], c);
    }
  }

  /** A connection accepts only lines that were broadcast while it was open, or sent to it in reply. */
  lemma OnlyTargetsReached(ss: seq<System>, ls: seq<Label>, i: nat, c: ConnId, k: nat)
    requires IsRun(ss, ls) && i < |ss| && c in ss[i].conns && k < |ss[i].conns[c].accepted|
    ensures var e := ss[i].conns[c].accepted[k];
            exists j :: 0 <= j < i && Targeted(ls, j, e.producer, e.line, c) && Calls(ls, j, e.producer) == e.call
  {
    AcceptedRun(ss, ls, i, c);
    assert EntryTells(ls, i, c, ss[i].conns[c].accepted[k]);
  }

  /** A broadcast sets out to reach exactly the connections open when it starts, a reply its own. */
  lemma TargetsExactly(ss: seq<System>, ls: seq<Label>, j: nat, p: Producer, line: Frame, c: ConnId)
    requires IsRun(ss, ls) && j < |ls| && Starts(ls[j], p, line)
    ensures SenderOf(ss[j + 1], p).Inside?
    ensures c in SenderOf(ss[j + 1], p).targets <==> Targeted(ls, j, p, line, c)
  {
    RegisteredIff(ss, ls, j, c);
  }

  lemma {:induction false} StaysInside(ss: seq<System>, ls: seq<Label>, j: nat, i: nat, p: Producer, line: Frame)
    requires IsRun(ss, ls) && j < i < |ss| && Starts(ls[j], p, line)
    requires forall k :: j < k < i ==> ls[k] != Finish(p)
    ensures var snd, first := SenderOf(ss[i], p), SenderOf(ss[j + 1], p);
            snd.Inside? && first.Inside? && snd.call == first.call == Calls(ls, j, p) &&
            snd.line == line && snd.targets == first.targets
    decreases i
  {
    if j + 1 < i {
      StaysInside(ss, ls, j, i - 1, p, line);
    } else {
      SenderRun(ss, ls, j, p);
    }
  }

  /** When a call returns, each connection that was open when the broadcast started, or that it
      replied to, has the line or is closed. */
  lemma NothingDropped(ss: seq<System>, ls: seq<Label>, j: nat, i: nat, p: Producer, line: Frame, c: ConnId)
    requires IsRun(ss, ls) && j < i < |ls| && Starts(ls[j], p, line) && ls[i] == Finish(p)
    requires (forall k :: j < k < i ==> ls[k] != Finish(p)) && Targeted(ls, j, p, line, c)
    ensures c in ss[i].conns
    ensures Ended(ls, i, c) || Entry(p, Calls(ls, j, p), line) in ss[i].conns[c].accepted
  {
    TargetsExactly(ss, ls, j, p, line, c);
    StaysInside(ss, ls, j, i, p, line);
    InvRun(ss, ls, i);
    assert Reached(ss[i], p, c);
    DoneIff(ss, ls, i, c);
  }

  /** The connection was closed, or a write on it failed, in one of the first i steps. */
  ghost predicate Ended(ls: seq<Label>, i: nat, c: ConnId) {
    exists k :: 0 <= k < i && k < |ls| && (ls[k] == CloseConn(c) || ls[k] == WriteErr(c))
  }

  lemma EndedStep(ls: seq<Label>, i: nat, c: ConnId)
    requires i < |ls|
    ensures Ended(ls, i + 1, c) <==> Ended(ls, i, c) || ls[i] == CloseConn(c) || ls[i] == WriteErr(c)
  {
  }

  lemma DoneStep(s: System, l: Label, c: ConnId)
    requires Enabled(s, l)
    ensures c in Next(s, l).conns <==> c in s.conns || l == AddConn(c)
    ensures c in Next(s, l).conns ==>
              (Next(s, l).conns[c].done <==>
               (c in s.conns && s.conns[c].done) || l == CloseConn(c) || l == WriteErr(c))
  {
  }

  lemma {:induction false} DoneIff(ss: seq<System>, ls: seq<Label>, i: nat, c: ConnId)
    requires IsRun(ss, ls) && i < |ss|
    ensures c !in ss[i].conns ==> !Ended(ls, i, c)
    ensures c in ss[i].conns ==> (ss[i].conns[c].done <==> Ended(ls, i, c))
  {
    if i > 0 {
      DoneIff(ss, ls, i - 1, c);
      EndedStep(ls, i - 1, c);
      DoneStep(ss[i - 1], ls[i - 1], c);
    }
  }

  /** A send that has not gone through can do so, give up on a closed connection, or wait for a
      writer that can move: no full queue blocks a sender for good by itself. With nothing left to
      send the call can return. */
  lemma NeverStuck(ss: seq<System>, ls: seq<Label>, i: nat, p: Producer, c: ConnId)
    requires IsRun(ss, ls) && i < |ss| && SenderOf(ss[i], p).Inside?
    ensures var s := ss[i];
            c in SenderOf(s, p).waiting ==>
              Enabled(s, Deliver(p, c)) || Enabled(s, Abandon(p, c)) ||
              Enabled(s, TakeLine(c)) || Enabled(s, WriteOk(c))
    ensures SenderOf(ss[i], p).waiting == {} ==> Enabled(ss[i], Finish(p))
  {
    InvRun(ss, ls, i);
    assert TargetsKnown(ss[i], p);
    if c in SenderOf(ss[i], p).waiting {
      assert ConnOk(ss[i], c);
    }
  }

  lemma {:induction false} CallsGrow(ls: seq<Label>, a: nat, b: nat, p: Producer)
    requires a <= b <= |ls|
    ensures Calls(ls, a, p) <= Calls(ls, b, p)
    decreases b
  {
    if a < b {
      CallsGrow(ls, a, b - 1, p);
    }
  }

  /** The lines of one producer are accepted in the order in which its calls started. */
  lemma CallOrderKept(ss: seq<System>, ls: seq<Label>, i: nat, c: ConnId, k: nat, m: nat)
      returns (a: nat, b: nat)
    requires IsRun(ss, ls) && i < |ss| && c in ss[i].conns && k < m < |ss[i].conns[c].accepted|
    requires ss[i].conns[c].accepted[k].producer == ss[i].conns[c].accepted[m].producer
    ensures var e, f := ss[i].conns[c].accepted[k], ss[i].conns[c].accepted[m];
            a < b < i && Targeted(ls, a, e.producer, e.line, c) && Targeted(ls, b, f.producer, f.line, c)
  {
    var e, f := ss[i].conns[c].accepted[k], ss[i].conns[c].accepted[m];
    AcceptedRun(ss, ls, i, c);
    assert EntryTells(ls, i, c, e) && EntryTells(ls, i, c, f);
    a :| 0 <= a < i && Targeted(ls, a, e.producer, e.line, c) && Calls(ls, a, e.producer) == e.call;
    b :| 0 <= b < i && Targeted(ls, b, f.producer, f.line, c) && Calls(ls, b, f.producer) == f.call;
    OutboundSafety(ss, ls, i, c);
    if b <= a {
      CallsGrow(ls, b, a, e.producer);
    }
  }

  function Payloads(entries: seq<Entry>): seq<Frame> {
    seq(|entries|, k requires 0 <= k < |entries| => entries[k].line)
  }

  lemma {:induction false} FramesRead(payloads: seq<Frame>, tail: seq<Byte>)
    requires Sendable(payloads) && NL !in tail
    ensures LinesOf(Frames(payloads) + tail, NL) == payloads
  {
    if payloads == [] {
      assert [] + tail == tail;
      NoLine(tail, NL);
    } else {
      var p, rest := payloads[0], Frames(payloads[1..]) + tail;
      assert Frames(payloads) + tail == p + [NL] + rest;
      OneLine(p, rest, NL);
      FramesRead(payloads[1..], tail);
    }
  }

  /** However the client's reads cut the bytes written on a connection, `tail` being what a failed
      write left, the client routes exactly the written lines: a prefix of the accepted ones. */
  lemma ClientRoutesWritten(ss: seq<System>, ls: seq<Label>, i: nat, c: ConnId, chunks: seq<seq<Byte>>, tail: seq<Byte>)
    requires IsRun(ss, ls) && i < |ss| && c in ss[i].conns
    requires Sendable(Payloads(ss[i].conns[c].accepted)) && NL !in tail
    requires Concat(chunks) == Frames(Payloads(ss[i].conns[c].written)) + tail
    ensures DrainAll([], chunks).0 == Payloads(ss[i].conns[c].written)
    ensures Payloads(ss[i].conns[c].written) <= Payloads(ss[i].conns[c].accepted)
  {
    var conn := ss[i].conns[c];
    OutboundSafety(ss, ls, i, c);
    assert forall k :: 0 <= k < |conn.written| ==> conn.written[k] == conn.accepted[k];
    assert forall k :: 0 <= k < |conn.written| ==> Payloads(conn.written)[k] == Payloads(conn.accepted)[k];
    ChunkingIsIrrelevant([], chunks);
    assert [] + Concat(chunks) == Concat(chunks);
    FramesRead(Payloads(conn.written), tail);
  }
}
