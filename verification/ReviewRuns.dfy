/** Whole runs of the review store of sidecar/internal/diffreview/pending.go against a file
    system that other programs edit too. */
module ReviewRuns {
  import opened Hunks
  import opened HunkProperties
  import opened HunkTexts
  import opened PendingStore
  import opened Options
  import opened Sequences

  /** What is left of the file after os.WriteFile. */
  datatype WriteResult = Written | Failed(left: Option<string>)

  /** `External` replaces or deletes a file. In `Decide`, `readable` says whether reading an
      existing file works, `race` is another program's change between the store's read and its
      write, and `result` is how the write ends if there is one. */
  datatype Event =
    | Stage(path: string, oldText: string, newText: string)
    | Decide(path: string, choice: Choice, readable: bool, race: Option<Option<string>>, result: WriteResult)
    | External(path: string, content: Option<string>)

  type Files = map<string, string>

  datatype State = State(reviews: Reviews, files: Files)

  function Put(files: Files, path: string, content: Option<string>): Files {
    if content.Some? then files[path := content.value] else files - {path}
  }

  function Seen(s: State, ev: Event): Option<string>
    requires ev.Decide?
  {
    if ev.readable && ev.path in s.files then Some(s.files[ev.path]) else None
  }

  function OutcomeIn(s: State, ev: Event): Outcome
    requires ev.Decide?
  {
    OutcomeOf(s.reviews, ev.path, ev.choice, Seen(s, ev))
  }

  /** The files at the moment of the write. */
  function FilesAtWrite(s: State, ev: Event): Files
    requires ev.Decide?
  {
    if ev.race.Some? then Put(s.files, ev.path, ev.race.value) else s.files
  }

  function Next(s: State, ev: Event): State {
    match ev
    case Stage(path, oldText, newText) => s.(reviews := Staged(s.reviews, path, oldText, newText))
    case External(path, content) => s.(files := Put(s.files, path, content))
    case Decide(path, choice, _, _, result) =>
      var outcome := OutcomeIn(s, ev);
      var files := FilesAtWrite(s, ev);
      State(Decided(s.reviews, path, choice),
            if !outcome.Write? then files
            else Put(files, path, if result.Written? then Some(outcome.text) else result.left))
  }

  /** The state after a history of events on a disk that started as `disk`. */
  function Exec(disk: Files, evs: seq<Event>): State {
    if evs == [] then State(map[], disk)
    else Next(Exec(disk, evs[..|evs| - 1]), evs[|evs| - 1])
  }

  // ---- What the history itself says about a path ----

  predicate Opens(ev: Event, path: string) {
    ev.Stage? && ev.path == path && ev.oldText != ev.newText
  }

  /** The last change proposed for `path`, as (old text, new text). */
  function LastStage(evs: seq<Event>, path: string): Option<(string, string)> {
    if evs == [] then None
    else
      var ev := evs[|evs| - 1];
      if Opens(ev, path) then Some((ev.oldText, ev.newText)) else LastStage(evs[..|evs| - 1], path)
  }

  /** The decision on hunk `id` since then: the last individual one, or else the first bulk value. */
  function Verdict(evs: seq<Event>, path: string, id: int): Option<bool> {
    if evs == [] then None
    else
      var ev, earlier := evs[|evs| - 1], Verdict(evs[..|evs| - 1], path, id);
      if Opens(ev, path) then None
      else if !ev.Decide? || ev.path != path then earlier
      else
        match ev.choice
        case Single(i, accept) => if i == id then Some(accept) else earlier
        case Rest(value) => if earlier.Some? then earlier else Some(value)
  }

  /** The ids individually decided since then, whether they name a hunk or not. */
  function Named(evs: seq<Event>, path: string): set<int> {
    if evs == [] then {}
    else
      var ev, earlier := evs[|evs| - 1], Named(evs[..|evs| - 1], path);
      if Opens(ev, path) then {}
      else if ev.Decide? && ev.path == path && ev.choice.Single? then earlier + {ev.choice.id}
      else earlier
  }

  function Verdicts(evs: seq<Event>, path: string, count: nat): Accepted {
    map id | 0 <= id < count && Verdict(evs, path, id).Some? :: Verdict(evs, path, id).value
  }

  ghost predicate AllDecided(evs: seq<Event>, path: string, count: nat) {
    forall id :: 0 <= id < count ==> Verdict(evs, path, id).Some?
  }

  /** Every individual decision since the change was proposed named one of its hunks. */
  ghost predicate NoStray(evs: seq<Event>, path: string, count: nat) {
    forall id :: id in Named(evs, path) ==> 0 <= id < count
  }

  // ---- The store agrees with the history ----

  /** What `r` records of id `id` is what the history says. */
  ghost predicate VoteMatches(evs: seq<Event>, path: string, r: Review, id: int) {
    if 0 <= id < |r.hunks| then
      Verdict(evs, path, id) == if id in r.decided && id in r.accepted then Some(r.accepted[id]) else None
    else
      id in r.decided <==> id in Named(evs, path)
  }

  ghost predicate TextsMatch(evs: seq<Event>, path: string, r: Review) {
    && LastStage(evs, path).Some?
    && r.oldText == LastStage(evs, path).value.0
    && r.hunks == HunksOf(LastStage(evs, path).value.0, LastStage(evs, path).value.1)
    && r.hunks != []
  }

  /** Review `r` of `path` records exactly the history `evs`. */
  ghost predicate Tracks(evs: seq<Event>, path: string, r: Review) {
    && TextsMatch(evs, path, r)
    && r.accepted.Keys == r.decided
    && forall id :: VoteMatches(evs, path, r, id)
  }

  lemma {:induction false} CountIds(hunks: seq<Hunk<string>>, k: nat)
    requires k <= |hunks| && forall j :: 0 <= j < |hunks| ==> hunks[j].id == j
    ensures |Ids(hunks[..k])| == k && forall id :: id in Ids(hunks[..k]) <==> 0 <= id < k
  {
    if k > 0 {
      CountIds(hunks, k - 1);
      IdsSnoc(hunks, k - 1);
    }
  }

  lemma CanonicalIds(o: seq<string>, hunks: seq<Hunk<string>>)
    requires Canonical(o, hunks)
    ensures |Ids(hunks)| == |hunks| && forall id :: id in Ids(hunks) <==> 0 <= id < |hunks|
  {
    assert hunks[..|hunks|] == hunks;
    CountIds(hunks, |hunks|);
  }

  lemma ComputedIds(oldText: string, newText: string, hunks: seq<Hunk<string>>)
    requires hunks == HunksOf(oldText, newText)
    ensures |Ids(hunks)| == |hunks| && forall id :: id in Ids(hunks) <==> 0 <= id < |hunks|
  {
    HunksAreCanonical(oldText, newText);
    CanonicalIds(SplitLines(oldText), hunks);
  }

  lemma Extend(evs: seq<Event>, ev: Event)
    ensures (evs + [ev])[..|evs + [ev]| - 1] == evs && (evs + [ev])[|evs + [ev]| - 1] == ev
  {
  }

  /** A decision keeps the texts and changes the votes as the history does. */
  lemma DecideTracks(evs: seq<Event>, ev: Event, r: Review)
    requires Tracks(evs, ev.path, r) && ev.Decide?
    ensures Tracks(evs + [ev], ev.path, WithChoice(r, ev.choice))
  {
    var r' := WithChoice(r, ev.choice);
    Extend(evs, ev);
    assert TextsMatch(evs + [ev], ev.path, r');
    ComputedIds(LastStage(evs, ev.path).value.0, LastStage(evs, ev.path).value.1, r.hunks);
    forall id
      ensures VoteMatches(evs + [ev], ev.path, r', id)
    {
      assert VoteMatches(evs, ev.path, r, id);
    }
  }

  lemma OtherTracks(evs: seq<Event>, ev: Event, path: string, r: Review)
    requires Tracks(evs, path, r) && !Opens(ev, path) && !(ev.Decide? && ev.path == path)
    ensures Tracks(evs + [ev], path, r)
  {
    Extend(evs, ev);
    forall id
      ensures VoteMatches(evs + [ev], path, r, id)
    {
      assert VoteMatches(evs, path, r, id);
    }
  }

  lemma StageTracks(evs: seq<Event>, ev: Event)
    requires Opens(ev, ev.path)
    ensures Tracks(evs + [ev], ev.path, Review(ev.oldText, HunksOf(ev.oldText, ev.newText), map[], {}))
  {
    NoHunksIffEqual(ev.oldText, ev.newText);
    Extend(evs, ev);
  }

  ghost predicate Tracked(evs: seq<Event>, s: State) {
    forall path :: path in s.reviews ==> Tracks(evs, path, s.reviews[path]) && !Resolved(s.reviews[path])
  }

  lemma StageStep(evs: seq<Event>, s: State, ev: Event)
    requires Tracked(evs, s) && ev.Stage? && ev.path in Next(s, ev).reviews
    ensures Tracks(evs + [ev], ev.path, Next(s, ev).reviews[ev.path]) && !Resolved(Next(s, ev).reviews[ev.path])
  {
    NoHunksIffEqual(ev.oldText, ev.newText);
    if Opens(ev, ev.path) {
      StageTracks(evs, ev);
    } else {
      OtherTracks(evs, ev, ev.path, s.reviews[ev.path]);
    }
  }

  lemma DecideStep(evs: seq<Event>, s: State, ev: Event)
    requires Tracked(evs, s) && ev.Decide? && ev.path in Next(s, ev).reviews
    ensures Tracks(evs + [ev], ev.path, Next(s, ev).reviews[ev.path]) && !Resolved(Next(s, ev).reviews[ev.path])
  {
    DecideTracks(evs, ev, s.reviews[ev.path]);
  }

  lemma UntouchedPath(s: State, ev: Event, path: string)
    requires ev.path != path || ev.External?
    ensures path in Next(s, ev).reviews <==> path in s.reviews
    ensures path in s.reviews ==> Next(s, ev).reviews[path] == s.reviews[path]
  {
  }

  lemma StepTracks(evs: seq<Event>, s: State, ev: Event, path: string)
    requires Tracked(evs, s) && path in Next(s, ev).reviews
    ensures Tracks(evs + [ev], path, Next(s, ev).reviews[path]) && !Resolved(Next(s, ev).reviews[path])
  {
    if ev.path != path || ev.External? {
      UntouchedPath(s, ev, path);
      OtherTracks(evs, ev, path, s.reviews[path]);
    } else if ev.Stage? {
      StageStep(evs, s, ev);
    } else {
      DecideStep(evs, s, ev);
    }
  }

  lemma StepTracked(evs: seq<Event>, s: State, ev: Event)
    requires Tracked(evs, s)
    ensures Tracked(evs + [ev], Next(s, ev))
  {
    forall path | path in Next(s, ev).reviews
      ensures Tracks(evs + [ev], path, Next(s, ev).reviews[path]) && !Resolved(Next(s, ev).reviews[path])
    {
      StepTracks(evs, s, ev, path);
    }
  }

  /** In every reachable state each review records exactly its history and is not yet resolved. */
  lemma {:induction false} ReviewsTrackHistory(disk: Files, evs: seq<Event>)
    ensures Tracked(evs, Exec(disk, evs))
  {
    if evs != [] {
      var before, ev := evs[..|evs| - 1], evs[|evs| - 1];
      ReviewsTrackHistory(disk, before);
      StepTracked(before, Exec(disk, before), ev);
      FrontAndLast(evs);
    }
  }

  // ---- What is written ----

  lemma {:induction false} ApplyReadsChosen<T>(o: seq<T>, hunks: seq<Hunk<T>>, a: Accepted, b: Accepted, cursor: nat)
    requires forall k :: 0 <= k < |hunks| ==> Chosen(a, hunks[k].id) == Chosen(b, hunks[k].id)
    ensures ApplyFrom(o, hunks, a, cursor) == ApplyFrom(o, hunks, b, cursor)
    decreases |hunks|
  {
    if hunks != [] {
      var gap := Gap(o, cursor, hunks[0].oldStart);
      var next := cursor + |gap| + |hunks[0].oldLines|;
      ApplyUnfold(o, hunks, a, cursor, gap, next);
      ApplyUnfold(o, hunks, b, cursor, gap, next);
      ApplyReadsChosen(o, hunks[1..], a, b, next);
    }
  }

  lemma TrackedText(evs: seq<Event>, path: string, r: Review)
    requires Tracks(evs, path, r)
    ensures Applied(r.oldText, r.hunks, r.accepted) == Applied(r.oldText, r.hunks, Verdicts(evs, path, |r.hunks|))
  {
    HunksAreCanonical(LastStage(evs, path).value.0, LastStage(evs, path).value.1);
    forall k | 0 <= k < |r.hunks|
      ensures Chosen(r.accepted, r.hunks[k].id) == Chosen(Verdicts(evs, path, |r.hunks|), r.hunks[k].id)
    {
      assert VoteMatches(evs, path, r, r.hunks[k].id);
    }
    ApplyReadsChosen(SplitLines(r.oldText), r.hunks, r.accepted, Verdicts(evs, path, |r.hunks|), 0);
  }

  /** In every run, a write puts down the last proposed change with exactly the hunks whose
      latest verdict is to accept. */
  lemma WritesTheVerdicts(disk: Files, evs: seq<Event>, ev: Event)
    requires ev.Decide? && OutcomeIn(Exec(disk, evs), ev).Write?
    ensures LastStage(evs, ev.path).Some?
    ensures var (oldText, newText) := LastStage(evs, ev.path).value;
            var hunks := HunksOf(oldText, newText);
            OutcomeIn(Exec(disk, evs), ev).text
            == Applied(oldText, hunks, Verdicts(evs + [ev], ev.path, |hunks|))
  {
    ReviewsTrackHistory(disk, evs);
    var r := Exec(disk, evs).reviews[ev.path];
    DecideTracks(evs, ev, r);
    TrackedText(evs + [ev], ev.path, WithChoice(r, ev.choice));
    Extend(evs, ev);
  }

  // ---- When a review is resolved ----

  /** The source's test counts decided ids; it means "every hunk is decided" exactly when all
      decided ids name hunks. */
  lemma ResolvedMeans(evs: seq<Event>, path: string, r: Review)
    requires Tracks(evs, path, r)
    ensures Resolved(r) ==> (AllDecided(evs, path, |r.hunks|) <==> NoStray(evs, path, |r.hunks|))
    ensures AllDecided(evs, path, |r.hunks|) ==> (Resolved(r) <==> NoStray(evs, path, |r.hunks|))
  {
    var n := |r.hunks|;
    ComputedIds(LastStage(evs, path).value.0, LastStage(evs, path).value.1, r.hunks);
    assert forall id :: VoteMatches(evs, path, r, id);
    if NoStray(evs, path, n) {
      assert r.decided <= Ids(r.hunks) by {
        forall id | id in r.decided
          ensures id in Ids(r.hunks)
        {
          assert VoteMatches(evs, path, r, id);
        }
      }
      SubsetSize(r.decided, Ids(r.hunks));
    }
    if AllDecided(evs, path, n) {
      assert Ids(r.hunks) <= r.decided by {
        forall id | id in Ids(r.hunks)
          ensures id in r.decided
        {
          assert VoteMatches(evs, path, r, id);
        }
      }
      SubsetSize(Ids(r.hunks), r.decided);
    }
    NamedAreDecided(evs, path, r);
  }

  lemma NamedAreDecided(evs: seq<Event>, path: string, r: Review)
    requires Tracks(evs, path, r)
    ensures r.decided == Ids(r.hunks) ==> NoStray(evs, path, |r.hunks|) && AllDecided(evs, path, |r.hunks|)
  {
    ComputedIds(LastStage(evs, path).value.0, LastStage(evs, path).value.1, r.hunks);
    if r.decided == Ids(r.hunks) {
      forall id | id in Named(evs, path)
        ensures 0 <= id < |r.hunks|
      {
        assert VoteMatches(evs, path, r, id);
      }
      forall id | 0 <= id < |r.hunks|
        ensures Verdict(evs, path, id).Some?
      {
        assert VoteMatches(evs, path, r, id);
      }
    }
  }

  lemma SubsetSize(a: set<int>, b: set<int>)
    requires a <= b
    ensures |a| <= |b| && (|a| == |b| <==> a == b)
  {
    assert b == a + (b - a);
  }

  /** One decision: the review becomes resolved exactly when its last hunk is decided. */
  lemma ResolveStep(evs: seq<Event>, ev: Event, r: Review, n: nat)
    requires ev.Decide? && Tracks(evs, ev.path, r) && !Resolved(r) && n == |r.hunks|
    requires NoStray(evs + [ev], ev.path, n)
    ensures Resolved(WithChoice(r, ev.choice)) <==> AllDecided(evs + [ev], ev.path, n)
    ensures !AllDecided(evs, ev.path, n)
  {
    DecideTracks(evs, ev, r);
    Extend(evs, ev);
    assert Named(evs, ev.path) <= Named(evs + [ev], ev.path);
    ResolvedMeans(evs, ev.path, r);
    ResolvedMeans(evs + [ev], ev.path, WithChoice(r, ev.choice));
  }

  lemma OutcomeResolved(s: State, ev: Event)
    requires ev.Decide? && ev.path in s.reviews
    ensures OutcomeIn(s, ev).Write? || OutcomeIn(s, ev).Stale? <==> Resolved(WithChoice(s.reviews[ev.path], ev.choice))
    ensures ev.path !in Next(s, ev).reviews <==> Resolved(WithChoice(s.reviews[ev.path], ev.choice))
  {
  }

  /** A path is written, or found stale, only in the step in which its last hunk is decided:
      some hunk has no verdict before it, and all have one after it. */
  lemma ResolvesWithLastHunk(disk: Files, evs: seq<Event>, ev: Event, s: State, n: nat)
    requires s == Exec(disk, evs) && ev.Decide? && ev.path in s.reviews && n == |s.reviews[ev.path].hunks|
    requires NoStray(evs + [ev], ev.path, n)
    ensures OutcomeIn(s, ev).Write? || OutcomeIn(s, ev).Stale? <==> AllDecided(evs + [ev], ev.path, n)
    ensures ev.path !in Next(s, ev).reviews <==> AllDecided(evs + [ev], ev.path, n)
    ensures !AllDecided(evs, ev.path, n)
  {
    ReviewsTrackHistory(disk, evs);
    ResolveStep(evs, ev, s.reviews[ev.path], n);
    OutcomeResolved(s, ev);
  }

  function Content(files: Files, path: string): Option<string> {
    if path in files then Some(files[path]) else None
  }

  lemma OnlyWritesTouch(s: State, ev: Event, path: string)
    requires !ev.External? && (ev.Decide? ==> ev.race.None?)
    requires Content(Next(s, ev).files, path) != Content(s.files, path)
    ensures ev.Decide? && ev.path == path && path in s.reviews && OutcomeIn(s, ev).Write?
    ensures ev.result.Written? ==> Content(Next(s, ev).files, path) == Some(OutcomeIn(s, ev).text)
  {
  }

  /** When no other program interferes in a step, a file changes in it only if the step decides
      the last hunk of that file's change, and a write that works leaves the change with exactly
      the hunks whose latest verdict is to accept. */
  lemma ChangesOnlyWhenResolved(disk: Files, evs: seq<Event>, ev: Event, s: State, path: string, n: nat)
    requires s == Exec(disk, evs) && !ev.External? && (ev.Decide? ==> ev.race.None?)
    requires (path in s.reviews ==> n == |s.reviews[path].hunks|) && NoStray(evs + [ev], path, n)
    requires Content(Next(s, ev).files, path) != Content(s.files, path)
    ensures ev.Decide? && ev.path == path && AllDecided(evs + [ev], path, n) && !AllDecided(evs, path, n)
    ensures LastStage(evs, path).Some?
    ensures var (oldText, newText) := LastStage(evs, path).value;
            var hunks := HunksOf(oldText, newText);
            ev.result.Written? ==>
              Content(Next(s, ev).files, path) == Some(Applied(oldText, hunks, Verdicts(evs + [ev], path, |hunks|)))
  {
    OnlyWritesTouch(s, ev, path);
    ResolvesWithLastHunk(disk, evs, ev, s, n);
    WritesTheVerdicts(disk, evs, ev);
  }

  // ---- Which reviews are open, and how every decision ends, read off the history ----

  /** Hunks of the last proposed change. */
  function HunkCount(evs: seq<Event>, path: string): nat
    requires LastStage(evs, path).Some?
  {
    |HunksOf(LastStage(evs, path).value.0, LastStage(evs, path).value.1)|
  }

  /** A change was proposed and some hunk of the last one has no verdict yet. */
  ghost predicate OpenIn(evs: seq<Event>, path: string) {
    LastStage(evs, path).Some? && !AllDecided(evs, path, HunkCount(evs, path))
  }

  ghost predicate NoStrayIn(evs: seq<Event>, path: string) {
    LastStage(evs, path).Some? ==> NoStray(evs, path, HunkCount(evs, path))
  }

  lemma OpensAfresh(evs: seq<Event>, ev: Event, path: string)
    requires Opens(ev, path)
    ensures OpenIn(evs + [ev], path)
  {
    Extend(evs, ev);
    NoHunksIffEqual(ev.oldText, ev.newText);
    assert Verdict(evs + [ev], path, 0) == None;
  }

  /** Without a new proposal the last one stands, verdicts are kept, and ids once named stay named. */
  lemma HistoryGrows(evs: seq<Event>, ev: Event, path: string)
    requires !Opens(ev, path)
    ensures LastStage(evs + [ev], path) == LastStage(evs, path)
    ensures forall id :: Verdict(evs, path, id).Some? ==> Verdict(evs + [ev], path, id).Some?
    ensures Named(evs, path) <= Named(evs + [ev], path)
    ensures !(ev.Decide? && ev.path == path) ==> forall id :: Verdict(evs + [ev], path, id) == Verdict(evs, path, id)
  {
    Extend(evs, ev);
  }

  lemma OpenStep(disk: Files, evs: seq<Event>, ev: Event, path: string)
    requires path in Exec(disk, evs).reviews <==> OpenIn(evs, path)
    requires NoStrayIn(evs + [ev], path) && !Opens(ev, path)
    ensures path in Next(Exec(disk, evs), ev).reviews <==> OpenIn(evs + [ev], path)
  {
    var s := Exec(disk, evs);
    HistoryGrows(evs, ev, path);
    if ev.path != path || ev.External? {
      UntouchedPath(s, ev, path);
    } else if ev.Stage? {
      NoHunksIffEqual(ev.oldText, ev.newText);
    } else if path in s.reviews {
      ReviewsTrackHistory(disk, evs);
      ResolvesWithLastHunk(disk, evs, ev, s, HunkCount(evs, path));
    }
  }

  lemma Reopened(disk: Files, evs: seq<Event>, ev: Event, path: string)
    requires Opens(ev, path)
    ensures path in Next(Exec(disk, evs), ev).reviews && OpenIn(evs + [ev], path)
  {
    OpensAfresh(evs, ev, path);
    NoHunksIffEqual(ev.oldText, ev.newText);
  }

  /** In every run a path has an open review exactly when a change was proposed and a hunk of the
      last one is undecided, provided every id decided since then names one of its hunks: proposing
      nothing new closes no review, and none is lost before its last hunk is decided. */
  lemma {:induction false} OpenExactly(disk: Files, evs: seq<Event>, path: string)
    requires NoStrayIn(evs, path)
    ensures path in Exec(disk, evs).reviews <==> OpenIn(evs, path)
  {
    if evs != [] {
      var before, ev := evs[..|evs| - 1], evs[|evs| - 1];
      FrontAndLast(evs);
      if Opens(ev, path) {
        Reopened(disk, before, ev, path);
      } else {
        HistoryGrows(before, ev, path);
        OpenExactly(disk, before, path);
        OpenStep(disk, before, ev, path);
      }
    }
  }

  /** The file is missing, unreadable, or still the base of the change. */
  predicate Unchanged(s: State, ev: Event, base: string)
    requires ev.Decide?
  {
    !ev.readable || Content(s.files, ev.path) in {None, Some(base)}
  }

  lemma OutcomeKinds(s: State, ev: Event, r: Review)
    requires ev.Decide? && ev.path in s.reviews && r == s.reviews[ev.path]
    ensures OutcomeIn(s, ev).Recorded? <==> !Resolved(WithChoice(r, ev.choice))
    ensures OutcomeIn(s, ev).Stale? <==> Resolved(WithChoice(r, ev.choice)) && !Unchanged(s, ev, r.oldText)
    ensures OutcomeIn(s, ev).Write? <==> Resolved(WithChoice(r, ev.choice)) && Unchanged(s, ev, r.oldText)
  {
  }

  lemma OpenOutcome(disk: Files, evs: seq<Event>, ev: Event, s: State, base: string, n: nat)
    requires s == Exec(disk, evs) && ev.Decide? && ev.path in s.reviews && LastStage(evs, ev.path).Some?
    requires base == LastStage(evs, ev.path).value.0 && n == HunkCount(evs, ev.path)
    requires NoStray(evs + [ev], ev.path, n)
    ensures OutcomeIn(s, ev).Recorded? <==> !AllDecided(evs + [ev], ev.path, n)
    ensures OutcomeIn(s, ev).Stale? <==> AllDecided(evs + [ev], ev.path, n) && !Unchanged(s, ev, base)
    ensures OutcomeIn(s, ev).Write? <==> AllDecided(evs + [ev], ev.path, n) && Unchanged(s, ev, base)
  {
    ReviewsTrackHistory(disk, evs);
    ResolveStep(evs, ev, s.reviews[ev.path], n);
    OutcomeKinds(s, ev, s.reviews[ev.path]);
  }

  /** How every decision ends, in every run in which every id decided since the last proposal names
      one of its hunks: without an open review nothing happens; otherwise it is only recorded while
      a hunk is undecided, and with the last hunk the file is written if it is unchanged, and the
      review discarded if it is not. */
  lemma OutcomeExactly(disk: Files, evs: seq<Event>, ev: Event, base: string, n: nat)
    requires ev.Decide? && LastStage(evs, ev.path).Some?
    requires base == LastStage(evs, ev.path).value.0 && n == HunkCount(evs, ev.path)
    requires NoStray(evs + [ev], ev.path, n)
    ensures var s := Exec(disk, evs);
            var last := !AllDecided(evs, ev.path, n) && AllDecided(evs + [ev], ev.path, n);
            (OutcomeIn(s, ev).NoReview? <==> AllDecided(evs, ev.path, n)) &&
            (OutcomeIn(s, ev).Recorded? <==> !AllDecided(evs + [ev], ev.path, n)) &&
            (OutcomeIn(s, ev).Stale? <==> last && !Unchanged(s, ev, base)) &&
            (OutcomeIn(s, ev).Write? <==> last && Unchanged(s, ev, base))
  {
    var s := Exec(disk, evs);
    HistoryGrows(evs, ev, ev.path);
    OpenExactly(disk, evs, ev.path);
    if ev.path in s.reviews {
      OpenOutcome(disk, evs, ev, s, base, n);
    }
  }

  /** A path for which nothing was ever proposed has no review. */
  lemma NothingProposed(disk: Files, evs: seq<Event>, ev: Event)
    requires ev.Decide? && LastStage(evs, ev.path).None?
    ensures OutcomeIn(Exec(disk, evs), ev).NoReview?
  {
    ReviewsTrackHistory(disk, evs);
  }

  /** So the last decision on an unchanged file leaves there the proposed change with exactly the
      hunks whose latest verdict is to accept, when its write works. */
  lemma LastDecisionWrites(disk: Files, evs: seq<Event>, ev: Event, base: string, n: nat)
    requires ev.Decide? && LastStage(evs, ev.path).Some?
    requires base == LastStage(evs, ev.path).value.0 && n == HunkCount(evs, ev.path)
    requires NoStray(evs + [ev], ev.path, n) && Unchanged(Exec(disk, evs), ev, base)
    requires !AllDecided(evs, ev.path, n) && AllDecided(evs + [ev], ev.path, n)
    ensures ev.result.Written? ==>
              Content(Exec(disk, evs + [ev]).files, ev.path)
              == Some(Applied(base, HunksOf(base, LastStage(evs, ev.path).value.1), Verdicts(evs + [ev], ev.path, n)))
    ensures ev.path !in Exec(disk, evs + [ev]).reviews
  {
    OutcomeExactly(disk, evs, ev, base, n);
    WritesTheVerdicts(disk, evs, ev);
    ExecSnoc(disk, evs, ev);
    ReviewsTrackHistory(disk, evs);
    ResolvesWithLastHunk(disk, evs, ev, Exec(disk, evs), n);
  }

  lemma RestDecidesAll(evs: seq<Event>, ev: Event, r: Review, n: nat)
    requires ev.Decide? && ev.choice.Rest? && Tracks(evs, ev.path, r) && n == |r.hunks|
    ensures Resolved(WithChoice(r, ev.choice)) <==> NoStray(evs, ev.path, n)
    ensures forall id :: 0 <= id < n ==>
              Verdict(evs + [ev], ev.path, id)
              == if Verdict(evs, ev.path, id).Some? then Verdict(evs, ev.path, id) else Some(ev.choice.value)
  {
    DecideTracks(evs, ev, r);
    Extend(evs, ev);
    assert Named(evs + [ev], ev.path) == Named(evs, ev.path);
    assert AllDecided(evs + [ev], ev.path, n);
    ResolvedMeans(evs + [ev], ev.path, WithChoice(r, ev.choice));
  }

  /** Accepting or rejecting the rest keeps earlier verdicts and decides every other hunk, and
      clears the path exactly when no stray id was decided before. */
  lemma BulkClears(disk: Files, evs: seq<Event>, ev: Event, s: State, n: nat)
    requires s == Exec(disk, evs) && ev.Decide? && ev.choice.Rest?
    requires ev.path in s.reviews && n == |s.reviews[ev.path].hunks|
    ensures ev.path !in Next(s, ev).reviews <==> NoStray(evs, ev.path, n)
    ensures forall id :: 0 <= id < n ==>
              Verdict(evs + [ev], ev.path, id)
              == if Verdict(evs, ev.path, id).Some? then Verdict(evs, ev.path, id) else Some(ev.choice.value)
  {
    ReviewsTrackHistory(disk, evs);
    RestDecidesAll(evs, ev, s.reviews[ev.path], n);
    OutcomeResolved(s, ev);
  }

  lemma FreshStage(disk: Files, path: string, oldText: string, newText: string, hunks: seq<Hunk<string>>)
    requires hunks == HunksOf(oldText, newText) && hunks != []
    ensures Exec(disk, [Stage(path, oldText, newText)]) == State(map[path := Review(oldText, hunks, map[], {})], disk)
  {
    var evs := [Stage(path, oldText, newText)];
    assert evs[..0] == [];
    assert Exec(disk, evs) == Next(State(map[], disk), evs[0]);
  }

  lemma StrayRecorded(r: Review, id: int)
    requires |r.hunks| == 1 && r.decided == {} && r.accepted == map[]
    ensures Resolved(WithChoice(r, Single(id, true))) && WithChoice(r, Single(id, true)).accepted == map[id := true]
  {
    assert {} + {id} == {id} && map[][id := true] == map[id := true];
  }

  /** The count is not enough for ids that name no hunk: one decision on hunk 7 of a one-hunk
      change ends the review and writes the old text, although its hunk was never decided. */
  lemma StrayIdWrites(path: string, oldText: string, newText: string, hunks: seq<Hunk<string>>)
    requires hunks == HunksOf(oldText, newText) && |hunks| == 1
    ensures var evs := [Stage(path, oldText, newText)];
            var ev := Decide(path, Single(7, true), true, None, Written);
            OutcomeIn(Exec(map[], evs), ev) == Write(oldText) && Verdict(evs + [ev], path, 0) == None
  {
    var st := Stage(path, oldText, newText);
    var ev := Decide(path, Single(7, true), true, None, Written);
    FreshStage(map[], path, oldText, newText, hunks);
    StrayRecorded(Review(oldText, hunks, map[], {}), 7);
    HunksAreCanonical(oldText, newText);
    assert EveryHunk(hunks, map[7 := true], false);
    AppliedExtremes(oldText, newText, map[7 := true]);
    NoHunksIffEqual(oldText, newText);
    NoVerdictYet(st, ev);
  }

  lemma NoVerdictYet(st: Event, ev: Event)
    requires Opens(st, st.path) && ev.Decide? && ev.path == st.path && ev.choice.Single? && ev.choice.id != 0
    ensures Verdict([st] + [ev], st.path, 0) == None
  {
    Extend([st], ev);
    assert [st][..0] == [];
  }

  lemma StrayIdWritesExample()
    ensures var evs := [Stage("f", "", "a")];
            var ev := Decide("f", Single(7, true), true, None, Written);
            OutcomeIn(Exec(map[], evs), ev) == Write("") && Verdict(evs + [ev], "f", 0) == None
  {
    OneSidedHunk(SplitLines(""), SplitLines("a"));
    StrayIdWrites("f", "", "a", HunksOf("", "a"));
  }

  // ---- What is never overwritten ----

  /** A write replaces text that is neither missing nor the base of the last proposed change. */
  ghost predicate Clobbers(disk: Files, evs: seq<Event>, ev: Event)
    requires ev.Decide?
  {
    var s := Exec(disk, evs);
    && OutcomeIn(s, ev).Write?
    && LastStage(evs, ev.path).Some?
    && ev.path in FilesAtWrite(s, ev)
    && FilesAtWrite(s, ev)[ev.path] != LastStage(evs, ev.path).value.0
  }

  /** In every run, newer content is lost exactly when another program puts it there between the
      store's read and its write, or when the file could not be read. */
  lemma LostUpdateExactly(disk: Files, evs: seq<Event>, ev: Event)
    requires ev.Decide? && OutcomeIn(Exec(disk, evs), ev).Write?
    ensures LastStage(evs, ev.path).Some?
    ensures var files, base := Exec(disk, evs).files, LastStage(evs, ev.path).value.0;
            Clobbers(disk, evs, ev) <==>
            if ev.race.Some? then ev.race.value.Some? && ev.race.value.value != base
            else !ev.readable && ev.path in files && files[ev.path] != base
  {
    ReviewsTrackHistory(disk, evs);
  }

  /** What the guard is for: left alone, a write to a readable file finds the base of the last
      proposed change there, or no file. */
  lemma WriteFindsBase(disk: Files, evs: seq<Event>, ev: Event)
    requires ev.Decide? && OutcomeIn(Exec(disk, evs), ev).Write? && ev.race.None? && ev.readable
    ensures LastStage(evs, ev.path).Some?
    ensures Content(Exec(disk, evs).files, ev.path) in {None, Some(LastStage(evs, ev.path).value.0)}
  {
    LostUpdateExactly(disk, evs, ev);
  }

  lemma OnlyHunkIsZero(oldText: string, newText: string, hunks: seq<Hunk<string>>)
    requires hunks == HunksOf(oldText, newText) && |hunks| == 1
    ensures hunks[0].id == 0
  {
    HunksAreCanonical(oldText, newText);
  }

  lemma OnlyHunkApplied(oldText: string, newText: string, hunks: seq<Hunk<string>>, accepted: Accepted)
    requires hunks == HunksOf(oldText, newText) && |hunks| == 1 && Chosen(accepted, 0)
    ensures Applied(oldText, hunks, accepted) == newText
  {
    OnlyHunkIsZero(oldText, newText, hunks);
    assert EveryHunk(hunks, accepted, true);
    AppliedExtremes(oldText, newText, accepted);
  }

  /** Accepting the only hunk of a change ends its review with the new text. */
  lemma OnlyHunkAccepted(r: Review, newText: string)
    requires r.hunks == HunksOf(r.oldText, newText) && |r.hunks| == 1 && r.accepted == map[] && r.decided == {}
    ensures var r' := WithChoice(r, Single(0, true));
            Resolved(r') && Applied(r'.oldText, r'.hunks, r'.accepted) == newText
  {
    StrayRecorded(r, 0);
    OnlyHunkApplied(r.oldText, newText, r.hunks, map[0 := true]);
  }

  lemma OnlyHunkWrites(s: State, ev: Event, newText: string)
    requires ev.Decide? && ev.choice == Single(0, true) && ev.result.Written? && ev.path in s.reviews
    requires var r := s.reviews[ev.path];
             r.hunks == HunksOf(r.oldText, newText) && |r.hunks| == 1 && r.accepted == map[] && r.decided == {} &&
             Seen(s, ev) in {None, Some(r.oldText)}
    ensures OutcomeIn(s, ev) == Write(newText) && Content(Next(s, ev).files, ev.path) == Some(newText)
  {
    OnlyHunkAccepted(s.reviews[ev.path], newText);
  }

  lemma ExecSnoc(disk: Files, evs: seq<Event>, ev: Event)
    ensures Exec(disk, evs + [ev]) == Next(Exec(disk, evs), ev)
  {
    Extend(evs, ev);
  }

  lemma RaceLoses(disk: Files, st: Event, ev: Event, hunks: seq<Hunk<string>>)
    requires st.Stage? && hunks == HunksOf(st.oldText, st.newText) && |hunks| == 1
    requires disk == map[st.path := st.oldText] && ev.Decide? && ev.path == st.path && ev.choice == Single(0, true)
    requires ev.race.Some? && ev.race.value.Some? && ev.race.value.value != st.oldText && ev.result.Written?
    ensures Clobbers(disk, [st], ev) && Content(FilesAtWrite(Exec(disk, [st]), ev), st.path) == ev.race.value
    ensures Content(Exec(disk, [st] + [ev]).files, st.path) == Some(st.newText)
  {
    NoHunksIffEqual(st.oldText, st.newText);
    FreshStage(disk, st.path, st.oldText, st.newText, hunks);
    OnlyHunkWrites(Exec(disk, [st]), ev, st.newText);
    ExecSnoc(disk, [st], ev);
    LostUpdateExactly(disk, [st], ev);
    Staged1(st);
  }

  lemma Staged1(st: Event)
    requires Opens(st, st.path)
    ensures LastStage([st], st.path) == Some((st.oldText, st.newText))
  {
  }

  /** Content "b", written between the store's read and its write, is lost. */
  lemma RaceLosesUpdate() returns (disk: Files, evs: seq<Event>, ev: Event)
    ensures ev.Decide? && ev.readable && Clobbers(disk, evs, ev)
    ensures Content(FilesAtWrite(Exec(disk, evs), ev), ev.path) == Some("b")
    ensures Content(Exec(disk, evs + [ev]).files, ev.path) == Some("a")
  {
    var st := Stage("f", "", "a");
    disk, evs, ev := map["f" := ""], [st], Decide("f", Single(0, true), true, Some(Some("b")), Written);
    OneSidedHunk(SplitLines(""), SplitLines("a"));
    RaceLoses(disk, st, ev, HunksOf("", "a"));
  }

  lemma UnreadableLoses(disk: Files, st: Event, ext: Event, evs: seq<Event>, ev: Event, hunks: seq<Hunk<string>>)
    requires st.Stage? && hunks == HunksOf(st.oldText, st.newText) && |hunks| == 1 && evs == [st] + [ext]
    requires ext.External? && ext.path == st.path && ext.content.Some? && ext.content.value != st.oldText
    requires ev.Decide? && ev.path == st.path && ev.choice == Single(0, true) && !ev.readable
    requires ev.race.None? && ev.result.Written?
    ensures Clobbers(disk, evs, ev) && Content(Exec(disk, evs).files, st.path) == ext.content
    ensures Content(Exec(disk, evs + [ev]).files, st.path) == Some(st.newText)
  {
    NoHunksIffEqual(st.oldText, st.newText);
    FreshStage(disk, st.path, st.oldText, st.newText, hunks);
    ExecSnoc(disk, [st], ext);
    OnlyHunkWrites(Exec(disk, evs), ev, st.newText);
    ExecSnoc(disk, evs, ev);
    LostUpdateExactly(disk, evs, ev);
    Extend([st], ext);
    Staged1(st);
  }

  /** Content "b", written after the change was proposed to a file that cannot be read, is lost. */
  lemma UnreadableLosesUpdate() returns (disk: Files, evs: seq<Event>, ev: Event)
    ensures ev.Decide? && ev.race.None? && Clobbers(disk, evs, ev)
    ensures Content(Exec(disk, evs).files, ev.path) == Some("b")
    ensures Content(Exec(disk, evs + [ev]).files, ev.path) == Some("a")
  {
    var st, ext := Stage("f", "", "a"), External("f", Some("b"));
    disk, evs, ev := map["f" := ""], [st] + [ext], Decide("f", Single(0, true), false, None, Written);
    OneSidedHunk(SplitLines(""), SplitLines("a"));
    UnreadableLoses(disk, st, ext, evs, ev, HunksOf("", "a"));
  }
}
