/** Staged changes under review: sidecar/internal/diffreview/pending.go. */
module PendingStore {
  import opened Hunks
  import opened Options

  /** The value of a pending review. `decided` holds the keys of the source's map, whose
      values are always true. */
  datatype Review = Review(oldText: string, hunks: seq<Hunk<string>>, accepted: Accepted, decided: set<int>)

  /** decideMany's arguments: one hunk's decision (the map it gets has one entry), or one value
      for every hunk not yet decided. */
  datatype Choice = Single(id: int, accept: bool) | Rest(value: bool)

  /** What decideMany did. `Write` carries the text handed to os.WriteFile. */
  datatype Outcome = NoReview | Recorded | Stale | Write(text: string)

  function Ids(hunks: seq<Hunk<string>>): set<int> {
    set k | 0 <= k < |hunks| :: hunks[k].id
  }

  lemma IdsSnoc(hunks: seq<Hunk<string>>, k: nat)
    requires k < |hunks|
    ensures Ids(hunks[..k + 1]) == Ids(hunks[..k]) + {hunks[k].id}
  {
  }

  /** `value` for those of `ids` that have no decision yet. */
  function WithRest(r: Review, ids: set<int>, value: bool): Review {
    r.(accepted := r.accepted + (map id | id in ids - r.decided :: value), decided := r.decided + ids)
  }

  lemma RestSnoc(r: Review, ids: set<int>, id: int, value: bool)
    ensures var r' := WithRest(r, ids, value);
            WithRest(r, ids + {id}, value) ==
            if id in r'.decided then r' else r'.(accepted := r'.accepted[id := value], decided := r'.decided + {id})
  {
  }

  function WithChoice(r: Review, choice: Choice): Review {
    match choice
    case Single(id, accept) =>
      r.(accepted := r.accepted[id := accept], decided := r.decided + {id})
    case Rest(value) => WithRest(r, Ids(r.hunks), value)
  }

  /** The source's test for "every hunk is decided". */
  predicate Resolved(r: Review) {
    |r.decided| == |r.hunks|
  }

  lemma IsUpdate<K, V>(m: map<K, V>, n: map<K, V>, k: K, v: V)
    requires forall q :: q in n <==> q in m || q == k
    requires n[k] == v && forall q :: q in m && q != k ==> n[q] == m[q]
    ensures n == m[k := v]
  {
  }

  type Reviews = map<string, Review>

  function Staged(s: Reviews, path: string, oldText: string, newText: string): Reviews {
    WithHunks(s, path, oldText, HunksOf(oldText, newText))
  }

  function WithHunks(s: Reviews, path: string, oldText: string, hunks: seq<Hunk<string>>): Reviews {
    if |hunks| == 0 then s else s[path := Review(oldText, hunks, map[], {})]
  }

  /** How a decision ends. `seen` is what os.ReadFile returns, None for an error. */
  function OutcomeOf(s: Reviews, path: string, choice: Choice, seen: Option<string>): Outcome {
    if path !in s then NoReview
    else
      var r := WithChoice(s[path], choice);
      if !Resolved(r) then Recorded
      else if seen.Some? && seen.value != r.oldText then Stale
      else Write(Applied(r.oldText, r.hunks, r.accepted))
  }

  /** The reviews after a decision: a resolved one is gone, whether written or stale. */
  function Decided(s: Reviews, path: string, choice: Choice): Reviews {
    if path !in s then s
    else
      var r := WithChoice(s[path], choice);
      if Resolved(r) then s - {path} else s[path := r]
  }

  class Pending {
    const oldText: string
    const hunks: seq<Hunk<string>>
    var accepted: Accepted
    var decided: set<int>

    constructor (oldText: string, hunks: seq<Hunk<string>>)
      ensures View() == Review(oldText, hunks, map[], {})
    {
      this.oldText, this.hunks := oldText, hunks;
      accepted, decided := map[], {};
    }

    function View(): Review
      reads this
    {
      Review(oldText, hunks, accepted, decided)
    }

    /** The bulk loop of decideMany: only hunks not yet decided are touched. */
    method RecordRest(value: bool)
      modifies this
      ensures View() == WithChoice(old(View()), Rest(value))
    {
      ghost var r := View();
      for k := 0 to |hunks|
        invariant View() == WithRest(r, Ids(hunks[..k]), value)
      {
        IdsSnoc(hunks, k);
        RestSnoc(r, Ids(hunks[..k]), hunks[k].id, value);
        if hunks[k].id !in decided {
          decided := decided + {hunks[k].id};
          accepted := accepted[hunks[k].id := value];
        }
      }
      assert hunks[..|hunks|] == hunks;
    }

    method RecordSingle(id: int, accept: bool)
      modifies this
      ensures View() == WithChoice(old(View()), Single(id, accept))
    {
      decided := decided + {id};
      accepted := accepted[id := accept];
    }
  }

  class Store {
    var byPath: map<string, Pending>

    constructor ()
      ensures Valid() && View() == map[]
    {
      byPath := map[];
    }

    /** No two paths share a review object. */
    ghost predicate Valid()
      reads this
    {
      forall p, q :: p in byPath && q in byPath && p != q ==> byPath[p] != byPath[q]
    }

    ghost function View(): Reviews
      reads this, byPath.Values
    {
      map path | path in byPath :: byPath[path].View()
    }

    method Stage(path: string, oldText: string, newText: string) returns (changed: bool)
      requires Valid()
      modifies this
      ensures Valid()
      ensures forall q :: q in byPath ==> (q in old(byPath) && byPath[q] == old(byPath)[q]) || fresh(byPath[q])
      ensures View() == Staged(old(View()), path, oldText, newText)
      ensures changed <==> HunksOf(oldText, newText) != []
    {
      var hunks := ComputeHunks(oldText, newText);
      changed := StageHunks(path, oldText, hunks);
    }

    /** Stage from the test for "no change" on: a fresh review replaces the one the path may have. */
    method StageHunks(path: string, oldText: string, hunks: seq<Hunk<string>>) returns (changed: bool)
      requires Valid()
      modifies this
      ensures Valid()
      ensures forall q :: q in byPath ==> (q in old(byPath) && byPath[q] == old(byPath)[q]) || fresh(byPath[q])
      ensures View() == WithHunks(old(View()), path, oldText, hunks)
      ensures changed <==> |hunks| != 0
    {
      if |hunks| == 0 {
        return false;
      }
      ghost var before := View();
      var p := new Pending(oldText, hunks);
      byPath := byPath[path := p];
      IsUpdate(before, View(), path, Review(oldText, hunks, map[], {}));
      return true;
    }

    /** decideMany before the test for resolution. */
    method Note(path: string, choice: Choice)
      requires Valid() && path in byPath
      modifies byPath[path]
      ensures View() == old(View())[path := WithChoice(old(View())[path], choice)]
      ensures byPath[path].View() == WithChoice(old(View())[path], choice)
    {
      ghost var before := View();
      match choice {
        case Rest(value) => byPath[path].RecordRest(value);
        case Single(id, accept) => byPath[path].RecordSingle(id, accept);
      }
      IsUpdate(before, View(), path, WithChoice(before[path], choice));
    }

    method Forget(path: string)
      requires Valid() && path in byPath
      modifies this
      ensures Valid() && byPath == old(byPath) - {path}
      ensures View() == old(View()) - {path}
    {
      byPath := byPath - {path};
    }

    method DecideMany(path: string, choice: Choice, seen: Option<string>) returns (outcome: Outcome)
      requires Valid()
      modifies this, byPath.Values
      ensures Valid() && (byPath == old(byPath) || byPath == old(byPath) - {path})
      ensures View() == Decided(old(View()), path, choice)
      ensures outcome == OutcomeOf(old(View()), path, choice, seen)
    {
      if path !in byPath {
        return NoReview;
      }
      var p := byPath[path];
      Note(path, choice);
      if |p.decided| != |p.hunks| {
        return Recorded;
      }
      ghost var after := View()[path];
      Forget(path);
      assert View() == old(View())[path := after] - {path} == old(View()) - {path};
      if seen.Some? && seen.value != p.oldText {
        return Stale;
      }
      var final := ApplyHunks(p.oldText, p.hunks, p.accepted);
      return Write(final);
    }

    method Decide(path: string, hunkID: int, accept: bool, seen: Option<string>) returns (outcome: Outcome)
      requires Valid()
      modifies this, byPath.Values
      ensures Valid() && (byPath == old(byPath) || byPath == old(byPath) - {path})
      ensures View() == Decided(old(View()), path, Single(hunkID, accept))
      ensures outcome == OutcomeOf(old(View()), path, Single(hunkID, accept), seen)
    {
      outcome := DecideMany(path, Single(hunkID, accept), seen);
    }

    method AcceptAll(path: string, seen: Option<string>) returns (outcome: Outcome)
      requires Valid()
      modifies this, byPath.Values
      ensures Valid() && (byPath == old(byPath) || byPath == old(byPath) - {path})
      ensures View() == Decided(old(View()), path, Rest(true))
      ensures outcome == OutcomeOf(old(View()), path, Rest(true), seen)
    {
      outcome := DecideMany(path, Rest(true), seen);
    }

    method RejectAll(path: string, seen: Option<string>) returns (outcome: Outcome)
      requires Valid()
      modifies this, byPath.Values
      ensures Valid() && (byPath == old(byPath) || byPath == old(byPath) - {path})
      ensures View() == Decided(old(View()), path, Rest(false))
      ensures outcome == OutcomeOf(old(View()), path, Rest(false), seen)
    {
      outcome := DecideMany(path, Rest(false), seen);
    }
  }
}
