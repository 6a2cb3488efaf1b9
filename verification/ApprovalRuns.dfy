/** All interleavings of gated actions, human decisions, cancellations and mode changes over
    sidecar/internal/approval. */
module ApprovalRuns {
  import opened Approval
  import opened Options

  /** A Check call: it found it needs approval, waits on its item, has seen its context end, or
      has returned with a reason. `queued` is None for a call that returned without queueing. */
  datatype Check =
    | Undecided(rule: Rule)
    | Waiting(item: string, rule: Rule)
    | Cancelling(item: string)
    | Returned(queued: Option<string>, proceed: bool, reason: string)

  /** `pending` are the queued ids; `sending` the decisions taken but not yet sent; `slots` the
      decision channels; `decided` and `dropped` how ids left the queue. */
  datatype State = State(
    modes: map<string, Mode>, checks: map<nat, Check>, added: set<string>, pending: set<string>,
    sending: map<string, bool>, slots: map<string, bool>, decided: map<string, bool>, dropped: set<string>)

  const START := State(map[], map[], {}, {}, map[], map[], map[], {})

  datatype Label =
    | SetMode(workspace: string, mode: Mode)
    | Begin(k: nat, action: Action)          // Evaluate
    | Add(k: nat, id: string)                // queue the item under a new id
    | Decide(id: string, allow: bool)        // Decide's critical section
    | SendDecision(id: string)               // and its send
    | TakeDecision(k: nat)
    | ContextDone(k: nat)                    // the select takes ctx.Done
    | Remove(k: nat)

  predicate Enabled(s: State, l: Label) {
    match l
    case SetMode(_, _) => true
    case Begin(k, _) => k !in s.checks
    case Add(k, id) => k in s.checks && s.checks[k].Undecided? && id !in s.added
    case Decide(_, _) => true
    case SendDecision(id) => id in s.sending && id !in s.slots
    case TakeDecision(k) => k in s.checks && s.checks[k].Waiting? && s.checks[k].item in s.slots
    case ContextDone(k) => k in s.checks && s.checks[k].Waiting?
    case Remove(k) => k in s.checks && s.checks[k].Cancelling?
  }

  function Next(s: State, rules: Matcher, l: Label): State
    requires Enabled(s, l)
  {
    match l
    case SetMode(w, m) => if m.Other? then s else s.(modes := s.modes[w := m])
    case Begin(k, a) =>
      var (d, r) := Judge(ModeIn(s.modes, a.workspace), rules, a);
      s.(checks := s.checks[k := match d
                                 case Allow => Returned(None, true, "")
                                 case Deny => Returned(None, false, r.reason)
                                 case NeedApproval => Undecided(r)])
    case Add(k, id) =>
      s.(checks := s.checks[k := Waiting(id, s.checks[k].rule)], added := s.added + {id}, pending := s.pending + {id})
    case Decide(id, allow) =>
      if id !in s.pending then s
      else s.(pending := s.pending - {id}, sending := s.sending[id := allow], decided := s.decided[id := allow])
    case SendDecision(id) => s.(sending := s.sending - {id}, slots := s.slots[id := s.sending[id]])
    case TakeDecision(k) =>
      var c := s.checks[k];
      var allow := s.slots[c.item];
      s.(checks := s.checks[k := Returned(Some(c.item), allow, if allow then "" else "denied: " + c.rule.reason)])
    case ContextDone(k) => s.(checks := s.checks[k := Cancelling(s.checks[k].item)])
    case Remove(k) =>
      var id := s.checks[k].item;
      s.(checks := s.checks[k := Returned(Some(id), false, "approval cancelled")], pending := s.pending - {id},
         dropped := if id in s.pending then s.dropped + {id} else s.dropped)
  }

  ghost predicate IsRun(rules: Matcher, ss: seq<State>, ls: seq<Label>) {
    |ss| == |ls| + 1 && ss[0] == START &&
    forall i :: 0 <= i < |ls| ==> Enabled(ss[i], ls[i]) && ss[i + 1] == Next(ss[i], rules, ls[i])
  }

  /** Decide(id, allow) finds the item at step j. */
  ghost predicate Succeeds(ss: seq<State>, ls: seq<Label>, j: nat, id: string, allow: bool) {
    j < |ls| && j < |ss| && ls[j] == Decide(id, allow) && id in ss[j].pending
  }

  /** Where an id is: still queued, decided, or dropped by its cancelled waiter. */
  ghost predicate IdOk(s: State, id: string) {
    && (id in s.added <==> id in s.pending || id in s.decided || id in s.dropped)
    && !(id in s.pending && id in s.decided)
    && !(id in s.pending && id in s.dropped)
    && !(id in s.decided && id in s.dropped)
    && (id in s.sending ==> id in s.decided && s.sending[id] == s.decided[id] && id !in s.slots)
    && (id in s.slots ==> id in s.decided && s.slots[id] == s.decided[id])
    && (id in s.decided ==> id in s.sending || id in s.slots)
  }

  ghost predicate CheckOk(s: State, k: nat)
    requires k in s.checks
  {
    match s.checks[k]
    case Undecided(_) => true
    case Waiting(id, _) => id in s.added && id !in s.dropped
    case Cancelling(id) => id in s.added && id !in s.dropped
    case Returned(queued, proceed, _) =>
      queued.Some? ==>
        queued.value in s.added && queued.value !in s.pending &&
        (proceed ==> queued.value in s.decided && s.decided[queued.value])
  }

  ghost predicate Waits(s: State, k: nat, id: string) {
    k in s.checks && (s.checks[k].Waiting? || s.checks[k].Cancelling?) && s.checks[k].item == id
  }

  ghost predicate OneWaiter(s: State) {
    forall j, k, id :: Waits(s, j, id) && Waits(s, k, id) ==> j == k
  }

  ghost predicate Inv(s: State) {
    && (forall id :: IdOk(s, id))
    && (forall k :: k in s.checks ==> CheckOk(s, k))
    && OneWaiter(s)
  }

  lemma IdStep(s: State, rules: Matcher, l: Label, id: string)
    requires Inv(s) && Enabled(s, l)
    ensures IdOk(Next(s, rules, l), id)
  {
    assert IdOk(s, id);
  }

  lemma WaiterStep(s: State, rules: Matcher, l: Label)
    requires Inv(s) && Enabled(s, l)
    ensures OneWaiter(Next(s, rules, l))
  {
    var t := Next(s, rules, l);
    forall j, k, id | Waits(t, j, id) && Waits(t, k, id)
      ensures j == k
    {
      if l.Add? && id == l.id {
        assert forall c :: c in s.checks ==> CheckOk(s, c);
      } else {
        assert Waits(s, j, id) && Waits(s, k, id);
      }
    }
  }

  lemma CheckStep(s: State, rules: Matcher, l: Label, k: nat)
    requires Inv(s) && Enabled(s, l) && k in Next(s, rules, l).checks
    ensures CheckOk(Next(s, rules, l), k)
  {
    if l.Add? {
      assert IdOk(s, l.id);
    }
    if k in s.checks {
      assert CheckOk(s, k);
      var c := s.checks[k];
      if c.Waiting? || c.Cancelling? {
        assert IdOk(s, c.item) && Waits(s, k, c.item);
        if l.Remove? {
          assert Waits(s, l.k, s.checks[l.k].item);
        }
      } else if c.Returned? && c.queued.Some? {
        assert IdOk(s, c.queued.value);
      }
    }
  }

  lemma InvStep(s: State, rules: Matcher, l: Label)
    requires Inv(s) && Enabled(s, l)
    ensures Inv(Next(s, rules, l))
  {
    var t := Next(s, rules, l);
    forall id
      ensures IdOk(t, id)
    {
      IdStep(s, rules, l, id);
    }
    forall k | k in t.checks
      ensures CheckOk(t, k)
    {
      CheckStep(s, rules, l, k);
    }
    WaiterStep(s, rules, l);
  }

  lemma {:induction false} InvRun(rules: Matcher, ss: seq<State>, ls: seq<Label>, i: nat)
    requires IsRun(rules, ss, ls) && i < |ss|
    ensures Inv(ss[i])
  {
    if i > 0 {
      InvRun(rules, ss, ls, i - 1);
      InvStep(ss[i - 1], rules, ls[i - 1]);
    }
  }

  // ---- What every run guarantees ----

  /** Every id ever queued is in exactly one of: pending, decided, dropped. */
  lemma ExactlyOnePlace(rules: Matcher, ss: seq<State>, ls: seq<Label>, i: nat, id: string)
    requires IsRun(rules, ss, ls) && i < |ss| && id in ss[i].added
    ensures var s := ss[i];
            (if id in s.pending then 1 else 0) + (if id in s.decided then 1 else 0)
            + (if id in s.dropped then 1 else 0) == 1
  {
    InvRun(rules, ss, ls, i);
    assert IdOk(ss[i], id);
  }

  /** Decide's send never blocks, also when the waiter is long gone. */
  lemma DecideNeverBlocks(rules: Matcher, ss: seq<State>, ls: seq<Label>, i: nat, id: string)
    requires IsRun(rules, ss, ls) && i < |ss| && id in ss[i].sending
    ensures Enabled(ss[i], SendDecision(id))
  {
    InvRun(rules, ss, ls, i);
    assert IdOk(ss[i], id);
  }

  lemma DecidedStep(s: State, rules: Matcher, l: Label, id: string)
    requires Inv(s) && Enabled(s, l) && id in s.decided
    ensures var t := Next(s, rules, l); id in t.decided && t.decided[id] == s.decided[id]
  {
    assert IdOk(s, id);
  }

  lemma {:induction false} StaysDecided(rules: Matcher, ss: seq<State>, ls: seq<Label>, j: nat, i: nat, id: string,
                                        allow: bool)
    requires IsRun(rules, ss, ls) && j < i < |ss| && Succeeds(ss, ls, j, id, allow)
    ensures id in ss[i].decided && ss[i].decided[id] == allow && id !in ss[i].pending
    decreases i
  {
    InvRun(rules, ss, ls, i - 1);
    InvRun(rules, ss, ls, i);
    if i > j + 1 {
      StaysDecided(rules, ss, ls, j, i - 1, id, allow);
      DecidedStep(ss[i - 1], rules, ls[i - 1], id);
    }
    assert IdOk(ss[i], id);
  }

  /** Decide finds an id at most once. */
  lemma DecidesOnce(rules: Matcher, ss: seq<State>, ls: seq<Label>, i: nat, j: nat, id: string, a: bool, b: bool)
    requires IsRun(rules, ss, ls) && Succeeds(ss, ls, i, id, a) && Succeeds(ss, ls, j, id, b)
    ensures i == j
  {
    if i < j {
      StaysDecided(rules, ss, ls, i, j, id, a);
    } else if j < i {
      StaysDecided(rules, ss, ls, j, i, id, b);
    }
  }

  lemma NewlyDecided(s: State, rules: Matcher, l: Label, id: string)
    requires Enabled(s, l) && id in Next(s, rules, l).decided
    requires id !in s.decided || s.decided[id] != Next(s, rules, l).decided[id]
    ensures l == Decide(id, Next(s, rules, l).decided[id]) && id in s.pending
  {
  }

  lemma {:induction false} DecidedBefore(rules: Matcher, ss: seq<State>, ls: seq<Label>, i: nat, id: string)
      returns (j: nat)
    requires IsRun(rules, ss, ls) && i < |ss| && id in ss[i].decided
    ensures j < i && Succeeds(ss, ls, j, id, ss[i].decided[id])
  {
    if id in ss[i - 1].decided && ss[i].decided[id] == ss[i - 1].decided[id] {
      j := DecidedBefore(rules, ss, ls, i - 1, id);
    } else {
      j := i - 1;
      NewlyDecided(ss[j], rules, ls[j], id);
    }
  }

  lemma {:induction false} AddedGrows(rules: Matcher, ss: seq<State>, ls: seq<Label>, j: nat, i: nat)
    requires IsRun(rules, ss, ls) && j <= i < |ss|
    ensures ss[j].added <= ss[i].added
    decreases i
  {
    if j < i {
      AddedGrows(rules, ss, ls, j, i - 1);
    }
  }

  // ---- The mode in force, read off the run ----

  /** The mode last set for a workspace in the first i steps, unknown ones aside; Watch before that. */
  function LastMode(ls: seq<Label>, i: nat, workspace: string): (m: Mode)
    requires i <= |ls|
    ensures !m.Other?
  {
    if i == 0 then Watch
    else
      match ls[i - 1]
      case SetMode(w, m) => if w == workspace && !m.Other? then m else LastMode(ls, i - 1, workspace)
      case _ => LastMode(ls, i - 1, workspace)
  }

  lemma ModeStep(s: State, rules: Matcher, l: Label, workspace: string)
    requires Enabled(s, l)
    ensures ModeIn(Next(s, rules, l).modes, workspace)
            == if l.SetMode? && l.workspace == workspace && !l.mode.Other? then l.mode else ModeIn(s.modes, workspace)
  {
  }

  lemma {:induction false} ModeIsLast(rules: Matcher, ss: seq<State>, ls: seq<Label>, i: nat, workspace: string)
    requires IsRun(rules, ss, ls) && i < |ss|
    ensures ModeIn(ss[i].modes, workspace) == LastMode(ls, i, workspace)
  {
    if i > 0 {
      ModeIsLast(rules, ss, ls, i - 1, workspace);
      ModeStep(ss[i - 1], rules, ls[i - 1], workspace);
    }
  }

  predicate IsGated(mode: Mode, rules: Matcher, a: Action) {
    mode.GateMode? && a.tool == "command_run" && rules(a.command, a.args).Some?
  }

  predicate IsBlocked(mode: Mode, a: Action) {
    mode.Sandbox? && (a.tool == "command_run" || a.tool == "file_write")
  }

  /** Check k stands as an action evaluated in `mode` must: blocked, waved through, or waiting under
      its rule for an item not among `old'`, and never done without one. */
  ghost predicate Stands(s: State, rules: Matcher, k: nat, mode: Mode, a: Action, old': set<string>) {
    k in s.checks &&
    if IsBlocked(mode, a) then s.checks[k] == Returned(None, false, "sandbox mode blocks writes and commands")
    else if !IsGated(mode, rules, a) then s.checks[k] == Returned(None, true, "")
    else
      match s.checks[k]
      case Undecided(rule) => Some(rule) == rules(a.command, a.args)
      case Waiting(item, rule) => Some(rule) == rules(a.command, a.args) && item !in old'
      case Cancelling(item) => item !in old'
      case Returned(queued, _, _) => queued.Some? && queued.value !in old'
  }

  lemma StandsFirst(s: State, rules: Matcher, k: nat, a: Action)
    requires Enabled(s, Begin(k, a)) && !ModeIn(s.modes, a.workspace).Other?
    ensures Stands(Next(s, rules, Begin(k, a)), rules, k, ModeIn(s.modes, a.workspace), a, s.added)
  {
  }

  lemma StandsStep(s: State, rules: Matcher, l: Label, k: nat, mode: Mode, a: Action, old': set<string>)
    requires Enabled(s, l) && Stands(s, rules, k, mode, a, old') && old' <= s.added
    ensures Stands(Next(s, rules, l), rules, k, mode, a, old')
  {
  }

  /** What an action's evaluation comes to, by the mode last set for its workspace. In Sandbox,
      commands and file writes are denied; in Gate, commands a rule fires on need approval under
      that rule; everything else goes ahead. Denied and waved-through actions stay so. */
  lemma {:induction false} EvaluationStands(rules: Matcher, ss: seq<State>, ls: seq<Label>, j: nat, i: nat, k: nat,
                                            a: Action)
    requires IsRun(rules, ss, ls) && j < i < |ss| && ls[j] == Begin(k, a)
    ensures Stands(ss[i], rules, k, LastMode(ls, j, a.workspace), a, ss[j].added)
    decreases i
  {
    ModeIsLast(rules, ss, ls, j, a.workspace);
    if j + 1 < i {
      EvaluationStands(rules, ss, ls, j, i - 1, k, a);
      AddedGrows(rules, ss, ls, j, i - 1);
      StandsStep(ss[i - 1], rules, ls[i - 1], k, LastMode(ls, j, a.workspace), a, ss[j].added);
    } else {
      StandsFirst(ss[j], rules, k, a);
    }
  }

  /** An action that needs approval when it is evaluated goes ahead only if afterwards, and before
      it does, a Decide(id, true) succeeds for the very item it queued. */
  lemma GatedNeedsApproval(rules: Matcher, ss: seq<State>, ls: seq<Label>, j: nat, i: nat, k: nat, a: Action)
      returns (id: string, m: nat)
    requires IsRun(rules, ss, ls) && j < i < |ss| && ls[j] == Begin(k, a)
    requires LastMode(ls, j, a.workspace).GateMode? && a.tool == "command_run" && rules(a.command, a.args).Some?
    requires k in ss[i].checks && ss[i].checks[k].Returned? && ss[i].checks[k].proceed
    ensures ss[i].checks[k].queued == Some(id) && j < m < i && Succeeds(ss, ls, m, id, true)
  {
    EvaluationStands(rules, ss, ls, j, i, k, a);
    id := ss[i].checks[k].queued.value;
    InvRun(rules, ss, ls, i);
    assert CheckOk(ss[i], k);
    m := DecidedBefore(rules, ss, ls, i, id);
    InvRun(rules, ss, ls, m);
    assert IdOk(ss[m], id);
    if m <= j {
      AddedGrows(rules, ss, ls, m, j);
    }
  }

  lemma {:induction false} Begun(rules: Matcher, ss: seq<State>, ls: seq<Label>, i: nat, k: nat)
      returns (j: nat, a: Action)
    requires IsRun(rules, ss, ls) && i < |ss| && k in ss[i].checks
    ensures j < i && ls[j] == Begin(k, a)
  {
    if k in ss[i - 1].checks {
      j, a := Begun(rules, ss, ls, i - 1, k);
    } else {
      j, a := i - 1, ls[i - 1].action;
    }
  }

  /** Some Decide(id, true) for this item succeeded between the two moments. */
  ghost predicate ApprovedBetween(ss: seq<State>, ls: seq<Label>, j: nat, i: nat, queued: Option<string>) {
    queued.Some? && exists m :: j < m < i && Succeeds(ss, ls, m, queued.value, true)
  }

  /** Whatever goes ahead was begun as an action that its workspace's mode did not block, and if the
      mode and a rule gated it, it was approved since. */
  lemma ProceedsOnlyIfPermitted(rules: Matcher, ss: seq<State>, ls: seq<Label>, i: nat, k: nat)
      returns (j: nat, a: Action)
    requires IsRun(rules, ss, ls) && i < |ss| && k in ss[i].checks
    requires ss[i].checks[k].Returned? && ss[i].checks[k].proceed
    ensures j < i && ls[j] == Begin(k, a)
    ensures var mode := LastMode(ls, j, a.workspace);
            !IsBlocked(mode, a) &&
            (IsGated(mode, rules, a) ==> ApprovedBetween(ss, ls, j, i, ss[i].checks[k].queued))
  {
    j, a := Begun(rules, ss, ls, i, k);
    EvaluationStands(rules, ss, ls, j, i, k, a);
    if IsGated(LastMode(ls, j, a.workspace), rules, a) {
      var id, m := GatedNeedsApproval(rules, ss, ls, j, i, k, a);
      assert ApprovedBetween(ss, ls, j, i, ss[i].checks[k].queued);
    }
  }

  /** A check that takes its decision returns what was decided for its item, before, by the one
      Decide that found it: approved it goes ahead, denied it is refused. */
  lemma TakesDecision(rules: Matcher, ss: seq<State>, ls: seq<Label>, i: nat, k: nat) returns (m: nat, allow: bool)
    requires IsRun(rules, ss, ls) && i < |ls| && ls[i] == TakeDecision(k)
    ensures var c := ss[i].checks[k];
            m < i && Succeeds(ss, ls, m, c.item, allow) &&
            ss[i + 1].checks[k]
            == Returned(Some(c.item), allow, if allow then "" else "denied: " + c.rule.reason)
  {
    InvRun(rules, ss, ls, i);
    var id := ss[i].checks[k].item;
    assert IdOk(ss[i], id);
    m := DecidedBefore(rules, ss, ls, i, id);
    allow := ss[i].decided[id];
  }

  /** A waiting check can take its decision as soon as one was sent, and every decision made gets sent. */
  lemma ApprovedCanProceed(rules: Matcher, ss: seq<State>, ls: seq<Label>, m: nat, i: nat, k: nat, allow: bool)
    requires IsRun(rules, ss, ls) && m < i < |ss| && k in ss[i].checks && ss[i].checks[k].Waiting?
    requires Succeeds(ss, ls, m, ss[i].checks[k].item, allow)
    ensures Enabled(ss[i], TakeDecision(k)) || Enabled(ss[i], SendDecision(ss[i].checks[k].item))
  {
    var id := ss[i].checks[k].item;
    StaysDecided(rules, ss, ls, m, i, id, allow);
    InvRun(rules, ss, ls, i);
    assert IdOk(ss[i], id);
  }

  /** A check whose context ended is refused, and leaves nothing in the queue. */
  lemma CancelledLeavesQueue(rules: Matcher, ss: seq<State>, ls: seq<Label>, i: nat, k: nat)
    requires IsRun(rules, ss, ls) && i < |ls| && ls[i] == Remove(k)
    ensures var id := ss[i].checks[k].item;
            ss[i + 1].checks[k] == Returned(Some(id), false, "approval cancelled") &&
            id !in ss[i + 1].pending && (id in ss[i + 1].dropped <==> id in ss[i].pending)
  {
    InvRun(rules, ss, ls, i);
    assert CheckOk(ss[i], k);
  }

  /** No check that has returned, however it did, leaves its item in the queue. */
  lemma ReturnedLeavesQueue(rules: Matcher, ss: seq<State>, ls: seq<Label>, i: nat, k: nat, id: string)
    requires IsRun(rules, ss, ls) && i < |ss| && k in ss[i].checks
    requires ss[i].checks[k].Returned? && ss[i].checks[k].queued == Some(id)
    ensures id in ss[i].added && id !in ss[i].pending
  {
    InvRun(rules, ss, ls, i);
    assert CheckOk(ss[i], k);
  }

  ghost predicate Step(s: State, rules: Matcher, l: Label, t: State) {
    Enabled(s, l) && t == Next(s, rules, l)
  }

  lemma ItemQueued(rules: Matcher, a: Action, id: string) returns (s1: State, s2: State, s3: State)
    requires a.tool == "command_run" && rules(a.command, a.args).Some?
    ensures Step(START, rules, SetMode(a.workspace, GateMode), s1)
    ensures Step(s1, rules, Begin(0, a), s2)
    ensures Step(s2, rules, Add(0, id), s3)
    ensures s3.checks.Keys == {0} && s3.checks[0].Waiting? && s3.checks[0].item == id
    ensures s3.pending == {id} && s3.slots == map[] && s3.sending == map[]
  {
    s1 := START.(modes := map[a.workspace := GateMode]);
    s2 := Next(s1, rules, Begin(0, a));
    s3 := Next(s2, rules, Add(0, id));
  }

  lemma ApprovedTooLate(rules: Matcher, id: string, s3: State) returns (s4: State, s5: State, s6: State, s7: State)
    requires s3.checks.Keys == {0} && s3.checks[0].Waiting? && s3.checks[0].item == id
    requires s3.pending == {id} && s3.slots == map[] && s3.sending == map[]
    ensures Step(s3, rules, Decide(id, true), s4)
    ensures Step(s4, rules, SendDecision(id), s5)
    ensures Step(s5, rules, ContextDone(0), s6)
    ensures Step(s6, rules, Remove(0), s7)
    ensures s7.checks == map[0 := Returned(Some(id), false, "approval cancelled")]
  {
    s4 := Next(s3, rules, Decide(id, true));
    s5 := Next(s4, rules, SendDecision(id));
    s6 := Next(s5, rules, ContextDone(0));
    s7 := Next(s6, rules, Remove(0));
  }

  /** Approval is not a promise to proceed: a run in which a check's context ends after its item was
      approved and the decision sent, and the action is refused. */
  lemma ApprovedThenCancelled(rules: Matcher, a: Action, id: string, ls: seq<Label>) returns (ss: seq<State>)
    requires a.tool == "command_run" && rules(a.command, a.args).Some?
    requires ls == [SetMode(a.workspace, GateMode), Begin(0, a), Add(0, id), Decide(id, true), SendDecision(id),
                    ContextDone(0), Remove(0)]
    ensures IsRun(rules, ss, ls) && Succeeds(ss, ls, 3, id, true)
    ensures ss[7].checks == map[0 := Returned(Some(id), false, "approval cancelled")]
  {
    var s1, s2, s3 := ItemQueued(rules, a, id);
    var s4, s5, s6, s7 := ApprovedTooLate(rules, id, s3);
    ss := [START, s1, s2, s3, s4, s5, s6, s7];
    forall i | 0 <= i < |ls|
      ensures Step(ss[i], rules, ls[i], ss[i + 1])
    {
      assert i in {0, 1, 2, 3, 4, 5, 6};
    }
  }
}
