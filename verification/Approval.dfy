/** The approval gate and queue: sidecar/internal/approval/gate.go and queue.go. */
module Approval {
  import opened Options

  datatype Action = Action(tool: string, command: string, args: seq<string>, workspace: string)
  datatype Rule = Rule(id: string, reason: string)
  datatype Decision = Allow | Deny | NeedApproval

  /** `Other` stands for every string that names no mode. */
  datatype Mode = Watch | GateMode | Sandbox | Other(name: string)

  const DEFAULT_MODE := Watch

  /** RuleSet.FirstMatch: the first rule whose pattern fires on a command line, if any. */
  type Matcher = (string, seq<string>) -> Option<Rule>

  /** What the mode and the rules say about an action. */
  function Judge(mode: Mode, rules: Matcher, a: Action): (Decision, Rule) {
    match mode
    case Sandbox =>
      if a.tool == "command_run" || a.tool == "file_write"
      then (Deny, Rule("sandbox", "sandbox mode blocks writes and commands")) else (Allow, Rule("", ""))
    case GateMode =>
      if a.tool == "command_run" && rules(a.command, a.args).Some?
      then (NeedApproval, rules(a.command, a.args).value) else (Allow, Rule("", ""))
    case _ => (Allow, Rule("", ""))
  }

  function ModeIn(modes: map<string, Mode>, workspace: string): Mode {
    if workspace in modes then modes[workspace] else DEFAULT_MODE
  }

  class Gate {
    const rules: Matcher
    var modes: map<string, Mode>

    constructor (rules: Matcher)
      ensures this.rules == rules && modes == map[]
    {
      this.rules, modes := rules, map[];
    }

    /** Unknown modes are refused and change nothing, so only the three real ones are ever in force. */
    method SetMode(workspace: string, m: Mode) returns (ok: bool)
      modifies this`modes
      ensures ok <==> !m.Other?
      ensures modes == if ok then old(modes)[workspace := m] else old(modes)
      ensures forall w :: ModeIn(modes, w) == if ok && w == workspace then m else ModeIn(old(modes), w)
    {
      ok := m.Watch? || m.GateMode? || m.Sandbox?;
      if ok {
        modes := modes[workspace := m];
      }
    }

    method Evaluate(a: Action) returns (d: Decision, r: Rule)
      ensures (d, r) == Judge(ModeIn(modes, a.workspace), rules, a)
      ensures var mode := if a.workspace in modes then modes[a.workspace] else Watch;
              (d.Deny? <==> mode.Sandbox? && (a.tool == "command_run" || a.tool == "file_write")) &&
              (d.NeedApproval? <==> mode.GateMode? && a.tool == "command_run" && rules(a.command, a.args).Some?)
      ensures match d
              case Deny => r == Rule("sandbox", "sandbox mode blocks writes and commands")
              case NeedApproval => Some(r) == rules(a.command, a.args)
              case Allow => r == Rule("", "")
    {
      var mode := if a.workspace in modes then modes[a.workspace] else DEFAULT_MODE;
      match mode {
        case Sandbox =>
          if a.tool == "command_run" || a.tool == "file_write" {
            return Deny, Rule("sandbox", "sandbox mode blocks writes and commands");
          }
        case GateMode =>
          if a.tool == "command_run" {
            var m := rules(a.command, a.args);
            if m.Some? {
              return NeedApproval, m.value;
            }
          }
        case _ =>
      }
      return Allow, Rule("", "");
    }
  }

  /** An item and its one-slot decision channel. */
  class PendingItem {
    const id: string
    const action: Action
    const rule: Rule
    var decision: Option<bool>

    constructor (id: string, action: Action, rule: Rule)
      ensures this.id == id && this.action == action && this.rule == rule && decision == None
    {
      this.id, this.action, this.rule := id, action, rule;
      decision := None;
    }
  }

  class Queue {
    var items: map<string, PendingItem>

    constructor ()
      ensures Valid() && items == map[]
    {
      items := map[];
    }

    /** Items are filed under their own id, with an empty channel. */
    ghost predicate Valid()
      reads this, items.Values
    {
      forall id :: id in items ==> items[id].id == id && items[id].decision == None
    }

    method Add(newId: string, a: Action, r: Rule) returns (item: PendingItem)
      requires Valid() && newId !in items
      modifies this
      ensures Valid() && fresh(item) && item.id == newId && item.action == a && item.rule == r
      ensures items == old(items)[newId := item]
    {
      item := new PendingItem(newId, a, r);
      items := items[newId := item];
    }

    /** The channel of a found item is empty, so the send does not block. */
    method Decide(itemId: string, allow: bool) returns (found: bool)
      requires Valid()
      modifies this, items.Values
      ensures Valid() && items == old(items) - {itemId}
      ensures found <==> itemId in old(items)
      ensures forall id :: id in old(items) ==>
                old(items)[id].decision == if id == itemId then Some(allow) else None
    {
      found := itemId in items;
      if found {
        var item := items[itemId];
        items := items - {itemId};
        assert item.decision == None;
        item.decision := Some(allow);
      }
      assert items == old(items) - {itemId};
    }

    method Remove(itemId: string)
      requires Valid()
      modifies this
      ensures Valid() && items == old(items) - {itemId}
    {
      items := items - {itemId};
    }

    /** One view per pending item, in some order. */
    method List() returns (views: seq<(string, Action, Rule)>)
      requires Valid()
      ensures |views| == |items|
      ensures forall id :: id in items ==> (id, items[id].action, items[id].rule) in views
      ensures forall k :: 0 <= k < |views| ==>
                views[k].0 in items && views[k] == (views[k].0, items[views[k].0].action, items[views[k].0].rule)
    {
      views := [];
      var left := items;
      while left != map[]
        invariant forall id :: id in left ==> id in items && left[id] == items[id]
        invariant |views| + |left| == |items|
        invariant forall id :: id in items && id !in left ==> (id, items[id].action, items[id].rule) in views
        invariant forall k :: 0 <= k < |views| ==>
                    views[k].0 in items && views[k] == (views[k].0, items[views[k].0].action, items[views[k].0].rule)
        decreases |left|
      {
        var id :| id in left;
        views := views + [(id, left[id].action, left[id].rule)];
        left := left - {id};
      }
    }
  }
}
