/** The two-way workspace index and its persistence: sidecar/internal/workspace/registry.go. */
module Workspaces {
  import opened Options

  datatype Entry = Entry(id: string, path: string)

  /** The ids by path and the paths by id. */
  datatype Index = Index(byID: map<string, string>, byPath: map<string, string>) {
    function With(path: string, id: string): Index {
      Index(byID[id := path], byPath[path := id])
    }
    function Without(id: string): Index {
      if id in byID then Index(byID - {id}, byPath - {byID[id]}) else this
    }
  }

  /** The two maps are inverses of each other, and no id is empty. */
  ghost predicate Inverse(ix: Index) {
    && (forall id :: id in ix.byID ==> id != "" && ix.byID[id] in ix.byPath && ix.byPath[ix.byID[id]] == id)
    && (forall path :: path in ix.byPath ==> ix.byPath[path] in ix.byID && ix.byID[ix.byPath[path]] == path)
  }

  // ---- Opening and closing ----

  /** What the outside world answers to an Open: whether the path is a directory, and the git
      status if metadata, status and watcher all work out. */
  datatype Probe = Probe(isDir: bool, git: Option<string>)

  function OpenedIndex(ix: Index, path: string, probe: Probe, newId: string): Index {
    if !probe.isDir || path in ix.byPath || probe.git.None? then ix else ix.With(path, newId)
  }

  class Workspace {
    const id: string
    const path: string
    var git: string

    constructor (id: string, path: string, git: string)
      ensures this.id == id && this.path == path && this.git == git
    {
      this.id, this.path, this.git := id, path, git;
    }
  }

  /** `Found` carries null when the path's id has no workspace. */
  datatype OpenResult = Failed | Found(ws: Workspace?)

  class Registry {
    var byID: map<string, Workspace>
    var byPath: map<string, string>
    var stored: Option<seq<Entry>>

    constructor (stored: Option<seq<Entry>>)
      ensures byID == map[] && byPath == map[] && this.stored == stored
    {
      byID, byPath := map[], map[];
      this.stored := stored;
    }

    /** Workspaces are filed under their own id. */
    ghost predicate Valid()
      reads this, byID.Values
    {
      forall id :: id in byID ==> byID[id].id == id
    }

    ghost function View(): Index
      reads this, byID.Values
    {
      Index(map id | id in byID :: byID[id].path, byPath)
    }

    /** `writes` says whether the registry file can be written; a failure is ignored. */
    method Open(path: string, probe: Probe, newId: string, writes: bool) returns (r: OpenResult)
      requires Valid() && newId !in byID
      modifies this
      ensures Valid() && View() == OpenedIndex(old(View()), path, probe, newId)
      ensures r.Failed? <==> !probe.isDir || (path !in old(byPath) && probe.git.None?)
      ensures probe.isDir && path in old(byPath) ==>
                r == Found(if old(byPath)[path] in byID then byID[old(byPath)[path]] else null) && unchanged(this)
      ensures r.Failed? ==> unchanged(this)
      ensures probe.isDir && path !in old(byPath) && probe.git.Some? ==>
                newId in byID && r == Found(byID[newId]) &&
                byID[newId].path == path && byID[newId].git == probe.git.value &&
                (if writes then stored.Some? && Lists(stored.value, View().byID) else stored == old(stored))
    {
      if !probe.isDir {
        return Failed;
      }
      if path in byPath {
        var existing := byPath[path];
        return Found(if existing in byID then byID[existing] else null);
      }
      var ws := OpenLocked(path, newId, probe.git);
      if ws == null {
        return Failed;
      }
      PersistLocked(writes);
      return Found(ws);
    }

    method OpenLocked(path: string, id: string, git: Option<string>) returns (ws: Workspace?)
      requires Valid()
      modifies this`byID, this`byPath
      ensures Valid() && (ws == null <==> git.None?)
      ensures git.None? ==> byID == old(byID) && byPath == old(byPath)
      ensures git.Some? ==> fresh(ws) && ws.id == id && ws.path == path && ws.git == git.value
      ensures git.Some? ==> byID == old(byID)[id := ws] && View() == old(View()).With(path, id)
    {
      if git.None? {
        return null;
      }
      ws := new Workspace(id, path, git.value);
      byID := byID[id := ws];
      byPath := byPath[path := id];
    }

    method Close(id: string, writes: bool) returns (ok: bool)
      requires Valid()
      modifies this
      ensures Valid() && View() == old(View()).Without(id)
      ensures ok <==> id in old(byID)
      ensures byID == old(byID) - {id}
      ensures byPath == if ok then old(byPath) - {old(byID)[id].path} else old(byPath)
      ensures !ok ==> unchanged(this)
      ensures ok && writes ==> stored.Some? && Lists(stored.value, View().byID)
    {
      if id !in byID {
        return false;
      }
      var ws := byID[id];
      byID := byID - {id};
      byPath := byPath - {ws.path};
      assert View() == old(View()).Without(id);
      PersistLocked(writes);
      return true;
    }

    /** A git change replaces the status of an open workspace and moves nothing. */
    method OnGitChange(id: string, git: string)
      requires Valid()
      modifies if id in byID then {byID[id]} else {}
      ensures Valid() && View() == old(View())
      ensures id in byID ==> byID[id].git == git
    {
      if id in byID {
        byID[id].git := git;
      }
    }

    /** Writes one entry per workspace, in whatever order the map is walked. */
    method PersistLocked(writes: bool)
      requires Valid()
      modifies this`stored
      ensures if writes then stored.Some? && Lists(stored.value, View().byID) else stored == old(stored)
    {
      var entries: seq<Entry> := [];
      var left := byID;
      ghost var paths := View().byID;
      while left != map[]
        invariant forall id :: id in left ==> id in byID && left[id] == byID[id]
        invariant unchanged(this) && ListsExcept(entries, paths, left.Keys)
        decreases |left|
      {
        var id :| id in left;
        ListOneMore(entries, paths, left.Keys, id);
        entries := entries + [Entry(left[id].id, left[id].path)];
        left := left - {id};
      }
      assert Lists(entries, paths);
      if writes {
        stored := Some(entries);
        assert View().byID == paths;
      }
    }

    /** load: `ok(i)` says whether entry i's directory exists and opens, `gen(i)` is the id it gets
        when its own is empty. */
    method Load(ok: nat -> bool, gen: nat -> string, git: nat -> string)
      requires Valid() && byID == map[] && byPath == map[] && stored.Some?
      modifies this`byID, this`byPath
      ensures Valid() && View() == Loaded(stored.value, ok, gen, |stored.value|)
    {
      var entries := stored.value;
      for i := 0 to |entries|
        invariant Valid() && View() == Loaded(entries, ok, gen, i)
      {
        var e := entries[i];
        if ok(i) && e.path !in byPath {
          var id := if e.id == "" then gen(i) else e.id;
          var ws := OpenLocked(e.path, id, Some(git(i)));
        }
      }
    }
  }

  // ---- Reachable states ----

  datatype Event =
    | Open(path: string, probe: Probe, newId: string)
    | Close(id: string)
    | GitChange(id: string)

  function Next(ix: Index, ev: Event): Index {
    match ev
    case Open(path, probe, newId) => OpenedIndex(ix, path, probe, newId)
    case Close(id) => ix.Without(id)
    case GitChange(_) => ix
  }

  function Run(ix: Index, evs: seq<Event>): Index {
    if evs == [] then ix else Next(Run(ix, evs[..|evs| - 1]), evs[|evs| - 1])
  }

  /** Generated ids are not empty and not in use. */
  ghost predicate FreshIds(ix: Index, evs: seq<Event>) {
    forall i :: 0 <= i < |evs| && evs[i].Open? ==> evs[i].newId != "" && evs[i].newId !in Run(ix, evs[..i]).byID
  }

  lemma FreshFront(ix: Index, evs: seq<Event>)
    requires FreshIds(ix, evs) && evs != []
    ensures var n := |evs| - 1;
            FreshIds(ix, evs[..n]) &&
            (evs[n].Open? ==> evs[n].newId != "" && evs[n].newId !in Run(ix, evs[..n]).byID)
  {
    var n := |evs| - 1;
    assert forall i :: 0 <= i < n ==> evs[..n][..i] == evs[..i];
  }

  /** Whatever is opened and closed, the two maps stay inverses of each other. */
  lemma {:induction false} StaysInverse(ix: Index, evs: seq<Event>)
    requires Inverse(ix) && FreshIds(ix, evs)
    ensures Inverse(Run(ix, evs))
  {
    if evs != [] {
      FreshFront(ix, evs);
      StaysInverse(ix, evs[..|evs| - 1]);
    }
  }

  lemma StepKeepsId(ix: Index, ev: Event, path: string)
    requires Inverse(ix) && path in ix.byPath && (ev.Open? ==> ev.newId !in ix.byID)
    requires ev != Close(ix.byPath[path])
    ensures path in Next(ix, ev).byPath && Next(ix, ev).byPath[path] == ix.byPath[path]
  {
  }

  /** An open path keeps its id through every run that does not close it, so opening it again, at
      any time, returns the same workspace. */
  lemma {:induction false} KeepsId(ix: Index, evs: seq<Event>, i: nat, path: string, id: string)
    requires Inverse(ix) && FreshIds(ix, evs) && i <= |evs|
    requires path in Run(ix, evs[..i]).byPath && Run(ix, evs[..i]).byPath[path] == id
    requires forall k :: i <= k < |evs| ==> evs[k] != Close(id)
    ensures path in Run(ix, evs).byPath && Run(ix, evs).byPath[path] == id
    ensures id in Run(ix, evs).byID && Run(ix, evs).byID[id] == path
    decreases |evs|
  {
    StaysInverse(ix, evs);
    if i == |evs| {
      assert evs[..i] == evs;
    } else {
      var n := |evs| - 1;
      FreshFront(ix, evs);
      assert evs[..n][..i] == evs[..i];
      KeepsId(ix, evs[..n], i, path, id);
      StaysInverse(ix, evs[..n]);
      StepKeepsId(Run(ix, evs[..n]), evs[n], path);
    }
  }

  /** Opening an open path again changes nothing and returns the id it has. */
  lemma ReopenKeepsId(ix: Index, evs: seq<Event>, i: nat, path: string, id: string, probe: Probe, newId: string)
    requires Inverse(ix) && FreshIds(ix, evs) && i <= |evs|
    requires path in Run(ix, evs[..i]).byPath && Run(ix, evs[..i]).byPath[path] == id
    requires forall k :: i <= k < |evs| ==> evs[k] != Close(id)
    ensures var after := OpenedIndex(Run(ix, evs), path, probe, newId);
            after == Run(ix, evs) && path in after.byPath && after.byPath[path] == id
  {
    KeepsId(ix, evs, i, path, id);
  }

  // ---- Persisting and loading ----

  /** One entry per id, in some order. */
  ghost predicate Lists(entries: seq<Entry>, byID: map<string, string>) {
    && (forall id :: id in byID ==> Entry(id, byID[id]) in entries)
    && (forall k :: 0 <= k < |entries| ==> entries[k].id in byID && entries[k].path == byID[entries[k].id])
    && (forall j, k :: 0 <= j < k < |entries| ==> entries[j].id != entries[k].id)
  }

  ghost predicate ListsExcept(entries: seq<Entry>, byID: map<string, string>, left: set<string>) {
    && (forall id :: id in byID && id !in left ==> Entry(id, byID[id]) in entries)
    && (forall k :: 0 <= k < |entries| ==>
          entries[k].id in byID && entries[k].id !in left && entries[k].path == byID[entries[k].id])
    && (forall j, k :: 0 <= j < k < |entries| ==> entries[j].id != entries[k].id)
  }

  lemma ListOneMore(entries: seq<Entry>, byID: map<string, string>, left: set<string>, id: string)
    requires ListsExcept(entries, byID, left) && id in left && id in byID
    ensures ListsExcept(entries + [Entry(id, byID[id])], byID, left - {id})
  {
    var more := entries + [Entry(id, byID[id])];
    assert more[|entries|] == Entry(id, byID[id]);
    assert forall e :: e in entries ==> e in more;
  }

  function IdOf(entries: seq<Entry>, gen: nat -> string, i: nat): string
    requires i < |entries|
  {
    if entries[i].id == "" then gen(i) else entries[i].id
  }

  /** The index after the first n entries. */
  function Loaded(entries: seq<Entry>, ok: nat -> bool, gen: nat -> string, n: nat): Index
    requires n <= |entries|
  {
    if n == 0 then Index(map[], map[])
    else
      var ix, e := Loaded(entries, ok, gen, n - 1), entries[n - 1];
      if !ok(n - 1) || e.path in ix.byPath then ix else ix.With(e.path, IdOf(entries, gen, n - 1))
  }

  /** Entry i is one that load opens. */
  predicate Taken(entries: seq<Entry>, ok: nat -> bool, gen: nat -> string, i: nat)
    requires i < |entries|
  {
    ok(i) && entries[i].path !in Loaded(entries, ok, gen, i).byPath
  }

  /** Entry i is one that load opens, under this id. */
  ghost predicate TakenAs(entries: seq<Entry>, ok: nat -> bool, gen: nat -> string, i: nat, id: string) {
    i < |entries| && Taken(entries, ok, gen, i) && IdOf(entries, gen, i) == id
  }

  ghost predicate DistinctTaken(entries: seq<Entry>, ok: nat -> bool, gen: nat -> string, n: nat)
    requires n <= |entries|
  {
    forall i, j, id :: 0 <= i < j < n && TakenAs(entries, ok, gen, i, id) ==> !TakenAs(entries, ok, gen, j, id)
  }

  lemma {:induction false} IdLoaded(entries: seq<Entry>, ok: nat -> bool, gen: nat -> string, n: nat, id: string)
    requires n <= |entries|
    ensures id in Loaded(entries, ok, gen, n).byID <==> exists i :: 0 <= i < n && TakenAs(entries, ok, gen, i, id)
  {
    if n > 0 {
      IdLoaded(entries, ok, gen, n - 1, id);
      assert TakenAs(entries, ok, gen, n - 1, id) ==> id in Loaded(entries, ok, gen, n).byID;
    }
  }

  /** Every id in byID is the id of some path. */
  ghost predicate Onto(ix: Index) {
    forall id :: id in ix.byID ==> exists path :: path in ix.byPath && ix.byPath[path] == id
  }

  lemma {:induction false} LoadedOnto(entries: seq<Entry>, ok: nat -> bool, gen: nat -> string, n: nat)
    requires n <= |entries|
    ensures Onto(Loaded(entries, ok, gen, n))
  {
    if n > 0 {
      LoadedOnto(entries, ok, gen, n - 1);
      var before, ix := Loaded(entries, ok, gen, n - 1), Loaded(entries, ok, gen, n);
      forall id | id in ix.byID
        ensures exists path :: path in ix.byPath && ix.byPath[path] == id
      {
        if id in before.byID {
          var path :| path in before.byPath && before.byPath[path] == id;
          assert path in ix.byPath && ix.byPath[path] == id;
        } else {
          assert entries[n - 1].path in ix.byPath && ix.byPath[entries[n - 1].path] == id;
        }
      }
    }
  }

  lemma WithInverseIff(ix: Index, path: string, id: string)
    requires Onto(ix) && path !in ix.byPath && id != ""
    ensures Inverse(ix.With(path, id)) <==> Inverse(ix) && id !in ix.byID
  {
    var new' := ix.With(path, id);
    if id in ix.byID {
      var other :| other in ix.byPath && ix.byPath[other] == id;
      assert other in new'.byPath && new'.byID[new'.byPath[other]] == path;
    } else if Inverse(new') {
      forall i | i in ix.byID
        ensures i != "" && ix.byID[i] in ix.byPath && ix.byPath[ix.byID[i]] == i
      {
        assert new'.byPath[new'.byID[i]] == i;
      }
      forall p | p in ix.byPath
        ensures ix.byPath[p] in ix.byID && ix.byID[ix.byPath[p]] == p
      {
        assert new'.byID[new'.byPath[p]] == p;
      }
    }
  }

  /** Entry m takes part in a loaded registry: how that changes its consistency. */
  lemma LoadInverseStep(entries: seq<Entry>, ok: nat -> bool, gen: nat -> string, m: nat, n: nat)
    requires m < |entries| && n == m + 1 && forall i :: gen(i) != ""
    ensures Inverse(Loaded(entries, ok, gen, n)) <==>
            Inverse(Loaded(entries, ok, gen, m)) && FreshEntry(entries, ok, gen, m)
  {
    if Taken(entries, ok, gen, m) {
      LoadedOnto(entries, ok, gen, m);
      WithInverseIff(Loaded(entries, ok, gen, m), entries[m].path, IdOf(entries, gen, m));
    }
  }

  /** Entry m is skipped, or brings an id of its own. */
  ghost predicate FreshEntry(entries: seq<Entry>, ok: nat -> bool, gen: nat -> string, m: nat)
    requires m < |entries|
  {
    Taken(entries, ok, gen, m) ==> IdOf(entries, gen, m) !in Loaded(entries, ok, gen, m).byID
  }

  lemma TakenOneMore(entries: seq<Entry>, ok: nat -> bool, gen: nat -> string, m: nat, n: nat)
    requires m < |entries| && n == m + 1
    ensures DistinctTaken(entries, ok, gen, n) <==>
            DistinctTaken(entries, ok, gen, m) && FreshEntry(entries, ok, gen, m)
  {
    var id := IdOf(entries, gen, m);
    IdLoaded(entries, ok, gen, m, id);
    assert Taken(entries, ok, gen, m) ==> TakenAs(entries, ok, gen, m, id);
  }

  /** A loaded registry is consistent exactly when no two of the entries it opens share an id. */
  lemma {:induction false} LoadedInverseIff(entries: seq<Entry>, ok: nat -> bool, gen: nat -> string, n: nat)
    requires n <= |entries| && forall i :: gen(i) != ""
    ensures Inverse(Loaded(entries, ok, gen, n)) <==> DistinctTaken(entries, ok, gen, n)
  {
    if n > 0 {
      LoadedInverseIff(entries, ok, gen, n - 1);
      TakenOneMore(entries, ok, gen, n - 1, n);
      LoadInverseStep(entries, ok, gen, n - 1, n);
    }
  }

  /** `back` is the part of `ix` whose ids are in back.byID. */
  ghost predicate PartOf(back: Index, ix: Index) {
    && (forall id :: id in back.byID ==> id in ix.byID && back.byID[id] == ix.byID[id])
    && (forall path :: path in back.byPath <==> path in ix.byPath && ix.byPath[path] in back.byID)
    && (forall path :: path in back.byPath ==> back.byPath[path] == ix.byPath[path])
  }

  ghost predicate OkEntry(entries: seq<Entry>, ok: nat -> bool, i: nat, id: string) {
    i < |entries| && ok(i) && entries[i].id == id
  }

  lemma EntryKnown(ix: Index, entries: seq<Entry>, k: nat)
    requires Inverse(ix) && Lists(entries, ix.byID) && k < |entries|
    ensures entries[k].id in ix.byID && ix.byID[entries[k].id] == entries[k].path && entries[k].id != ""
  {
  }

  lemma {:induction false} LoadedIsPart(ix: Index, entries: seq<Entry>, ok: nat -> bool, gen: nat -> string, n: nat)
    requires Inverse(ix) && Lists(entries, ix.byID) && n <= |entries|
    ensures PartOf(Loaded(entries, ok, gen, n), ix)
  {
    if n > 0 {
      LoadedIsPart(ix, entries, ok, gen, n - 1);
      EntryKnown(ix, entries, n - 1);
      WithPart(Loaded(entries, ok, gen, n - 1), ix, entries[n - 1].path, entries[n - 1].id);
    }
  }

  lemma LoadStep(ix: Index, entries: seq<Entry>, ok: nat -> bool, gen: nat -> string, m: nat, n: nat, id: string)
    requires Inverse(ix) && Lists(entries, ix.byID) && m < |entries| && n == m + 1
    ensures id in Loaded(entries, ok, gen, n).byID <==>
            id in Loaded(entries, ok, gen, m).byID || OkEntry(entries, ok, m, id)
  {
    LoadedIsPart(ix, entries, ok, gen, m);
    EntryKnown(ix, entries, m);
    assert ix.byPath[entries[m].path] == entries[m].id;
  }

  lemma {:induction false} LoadedIds(ix: Index, entries: seq<Entry>, ok: nat -> bool, gen: nat -> string, n: nat,
                                     id: string)
    requires Inverse(ix) && Lists(entries, ix.byID) && n <= |entries|
    ensures id in Loaded(entries, ok, gen, n).byID <==> exists i :: 0 <= i < n && OkEntry(entries, ok, i, id)
  {
    if n > 0 {
      LoadedIds(ix, entries, ok, gen, n - 1, id);
      LoadStep(ix, entries, ok, gen, n - 1, n, id);
    }
  }

  /** After persisting a consistent index and loading it, the workspaces that come back, under
      their ids and paths, are exactly those whose directory still opens. */
  lemma PersistLoadSome(ix: Index, entries: seq<Entry>, ok: nat -> bool, gen: nat -> string, n: nat, id: string)
    requires Inverse(ix) && Lists(entries, ix.byID) && n <= |entries|
    ensures PartOf(Loaded(entries, ok, gen, n), ix)
    ensures id in Loaded(entries, ok, gen, n).byID <==> exists i :: 0 <= i < n && OkEntry(entries, ok, i, id)
  {
    LoadedIsPart(ix, entries, ok, gen, n);
    LoadedIds(ix, entries, ok, gen, n, id);
  }

  lemma WithPart(back: Index, ix: Index, path: string, id: string)
    requires Inverse(ix) && PartOf(back, ix) && id in ix.byID && ix.byID[id] == path
    ensures PartOf(back.With(path, id), ix)
  {
  }

  /** With every directory still there the index comes back as it was, in whatever order its
      entries were written. */
  lemma PersistLoad(ix: Index, entries: seq<Entry>, ok: nat -> bool, gen: nat -> string)
    requires Inverse(ix) && Lists(entries, ix.byID) && forall i :: 0 <= i < |entries| ==> ok(i)
    ensures Loaded(entries, ok, gen, |entries|) == ix
  {
    var back := Loaded(entries, ok, gen, |entries|);
    PersistLoadSome(ix, entries, ok, gen, |entries|, "");
    forall id | id in ix.byID
      ensures id in back.byID
    {
      var i :| 0 <= i < |entries| && entries[i] == Entry(id, ix.byID[id]);
      assert OkEntry(entries, ok, i, id);
      PersistLoadSome(ix, entries, ok, gen, |entries|, id);
    }
    SamePart(back, ix);
  }

  lemma SamePart(back: Index, ix: Index)
    requires Inverse(ix) && PartOf(back, ix) && forall id :: id in ix.byID ==> id in back.byID
    ensures back == ix
  {
    assert back.byID == ix.byID;
    assert back.byPath == ix.byPath;
  }

  /** What a shared id leads to: closing it leaves a path whose id has no workspace, so that
      opening the path again finds nothing where a workspace is promised. */
  lemma SharedIdDangles(gen: nat -> string)
    ensures var entries := [Entry("x", "p"), Entry("x", "q")];
            var ix := Loaded(entries, i => true, gen, 2).Without("x");
            "p" in ix.byPath && ix.byPath["p"] !in ix.byID
  {
    var entries := [Entry("x", "p"), Entry("x", "q")];
    var one := Loaded(entries, i => true, gen, 1);
    assert one == Index(map[], map[]).With("p", "x");
    assert Loaded(entries, i => true, gen, 2) == one.With("q", "x");
  }
}
