/** The activity log: the bounded in-memory ring and the per-session files of
    sidecar/internal/activity/store.go. */
module Activity {
  import opened Sequences

  /** Ring capacity per session. */
  const RING_SIZE: nat := 5000

  datatype Event = Event(seqNo: nat, session: string, summary: string, detail: string, payload: string)

  /** Redact, applied to summaries and details before anything is kept. */
  type Redactor = string -> string

  // ---- Safe file names ----

  predicate IsSafe(c: char) {
    'a' <= c <= 'z' || 'A' <= c <= 'Z' || '0' <= c <= '9' || c == '-' || c == '_'
  }

  function Cleaned(s: string): string {
    seq(|s|, i requires 0 <= i < |s| => if IsSafe(s[i]) then s[i] else '_')
  }

  function SafeKey(s: string): string {
    if s == "" then "session" else Cleaned(s)
  }

  method ComputeSafeKey(s: string) returns (key: string)
    ensures key == SafeKey(s)
    ensures s == "" ==> key == "session"
    ensures s != "" ==> |key| == |s| && forall k :: 0 <= k < |s| ==>
              key[k] == if 'a' <= s[k] <= 'z' || 'A' <= s[k] <= 'Z' || '0' <= s[k] <= '9' || s[k] in "-_" then s[k]
                        else '_'
  {
    var out := "";
    for i := 0 to |s|
      invariant |out| == i
      invariant forall k :: 0 <= k < i ==> out[k] == if IsSafe(s[k]) then s[k] else '_'
    {
      out := out + if IsSafe(s[i]) then [s[i]] else ['_'];
    }
    if |out| == 0 {
      return "session";
    }
    return out;
  }

  ghost predicate AllSafe(s: string) {
    forall i :: 0 <= i < |s| ==> IsSafe(s[i])
  }

  /** Keys are non-empty and safe, so applying it twice changes nothing; and a key is its own id
      exactly when the id is non-empty and safe. */
  lemma SafeKeyFixes(s: string)
    ensures SafeKey(s) != "" && AllSafe(SafeKey(s)) && SafeKey(SafeKey(s)) == SafeKey(s)
    ensures SafeKey(s) == s <==> s != "" && AllSafe(s)
  {
    var key := SafeKey(s);
    assert AllSafe("session");
    assert Cleaned(key) == key;
    if s != "" && AllSafe(s) {
      assert Cleaned(s) == s;
    }
  }

  // ---- The store ----

  function LastN<T>(s: seq<T>, n: nat): seq<T> {
    if |s| <= n then s else s[|s| - n..]
  }

  /** The event as kept: numbered and redacted. */
  function Kept(redact: Redactor, e: Event, seqNo: nat): Event {
    e.(seqNo := seqNo, summary := redact(e.summary), detail := redact(e.detail))
  }

  class Store {
    const redact: Redactor
    var seqNo: nat
    var ring: map<string, seq<Event>>
    /** File contents by safe key, one event a line. */
    var files: map<string, seq<Event>>
    /** The files an earlier process left, everything appended since, as kept and as given, and of
        each event whether its write worked. */
    ghost const disk: map<string, seq<Event>>
    ghost var history: seq<Event>
    ghost var given: seq<Event>
    ghost var worked: seq<bool>

    constructor (redact: Redactor, disk: map<string, seq<Event>>)
      ensures Valid() && this.redact == redact && this.disk == disk && history == [] && given == [] && worked == []
    {
      this.redact, seqNo, ring, files := redact, 0, map[], disk;
      this.disk, history, given, worked := disk, [], [], [];
    }

    ghost predicate Valid()
      reads this
    {
      && seqNo == |history| == |worked|
      && Numbered(history)
      && AllRedacted(redact, given, history)
      && files == Written(disk, Recorded(history, worked))
      && RingMatches(ring, history)
    }

    /** `writes` says whether opening and writing the session's file succeeds. */
    method Append(e: Event, writes: bool) returns (kept: Event)
      requires Valid()
      modifies this
      ensures Valid()
      ensures kept == Kept(redact, e, old(seqNo) + 1) && IsRedacted(redact, e, kept) && given == old(given) + [e]
      ensures history == old(history) + [kept] && worked == old(worked) + [writes]
      ensures files == if writes then FileAppend(old(files), kept) else old(files)
    {
      seqNo := seqNo + 1;
      kept := Kept(redact, e, seqNo);
      Push(kept);
      PersistLocked(kept, writes);
      AppendKeeps(redact, given, history, e, kept);
      RingPushed(old(ring), history, kept, ring);
      AppendWrites(disk, history, worked, kept, writes, old(files));
      history, given := history + [kept], given + [e];
      worked := worked + [writes];
    }

    method Push(kept: Event)
      modifies this`ring
      ensures ring == WithPush(old(ring), kept)
    {
      var events := RingOf(ring, kept.session) + [kept];
      if |events| > RING_SIZE {
        events := events[|events| - RING_SIZE..];
      }
      ring := ring[kept.session := events];
    }

    method PersistLocked(kept: Event, writes: bool)
      modifies this`files
      ensures files == if writes then FileAppend(old(files), kept) else old(files)
    {
      if writes {
        var key := ComputeSafeKey(kept.session);
        files := files[key := (if key in files then files[key] else []) + [kept]];
      }
    }

    method Recent(session: string, n: int) returns (events: seq<Event>)
      requires Valid()
      ensures events == (if n > 0 then LastN(RingOf(ring, session), n) else RingOf(ring, session))
      ensures n > 0 ==> events == LastN(OfSession(history, session), if n < RING_SIZE then n else RING_SIZE)
      ensures IsRecent(events, history, session, if 0 < n < 5000 then n else 5000)
      ensures forall e :: e in events ==> exists g :: g in given && IsRedacted(redact, g, e)
      ensures AllTrue(worked) && OwnFile(history, session) ==> Suffix(events, FileOf(files, session))
      ensures AllTrue(worked) ==>
                (Suffix(events, FileOf(files, session)) <==> EndsOwn(FileOf(files, session), session, |events|))
      ensures Ascending(events)
    {
      events := RingOf(ring, session);
      LastOfLast(OfSession(history, session), RING_SIZE, if n > 0 then n else RING_SIZE);
      if n > 0 && |events| > n {
        events := events[|events| - n..];
      }
      ghost var k := if 0 < n < RING_SIZE then n else RING_SIZE;
      assert events == LastN(OfSession(history, session), k);
      RecentAscends(history, session, k);
      RecentMeans(redact, given, history, session, k, events);
      RecentAgainstFile(disk, history, worked, session, k, events);
    }

    /** The session's log file, or nothing if there is none. Its lines of the session are those an
        earlier process left and then exactly the events whose write worked. */
    method All(session: string) returns (events: seq<Event>)
      requires Valid()
      ensures events == FileOf(files, session)
      ensures OfSession(events, session)
              == OfSession(FileOf(disk, session), session) + OfSession(Recorded(history, worked), session)
    {
      FileKeepsSession(disk, Recorded(history, worked), session);
      var key := ComputeSafeKey(session);
      events := if key in files then files[key] else [];
    }
  }

  /** Numbered 1, 2, ... */
  ghost predicate Numbered(events: seq<Event>) {
    forall i :: 0 <= i < |events| ==> events[i].seqNo == i + 1
  }

  lemma NumberedSnoc(events: seq<Event>, e: Event)
    requires Numbered(events) && e.seqNo == |events| + 1
    ensures Numbered(events + [e])
  {
  }

  /** `kept` is `given` with its summary and its detail redacted, and numbered. */
  ghost predicate IsRedacted(redact: Redactor, given: Event, kept: Event) {
    && kept.summary == redact(given.summary) && kept.detail == redact(given.detail)
    && kept.session == given.session && kept.payload == given.payload
  }

  /** Nothing is kept but the redaction of what was given, in order. */
  ghost predicate AllRedacted(redact: Redactor, given: seq<Event>, kept: seq<Event>) {
    |given| == |kept| && forall i :: 0 <= i < |kept| ==> IsRedacted(redact, given[i], kept[i])
  }

  /** The last events of the session, as many as there are up to n: none of it is newer than these. */
  ghost predicate IsRecent(events: seq<Event>, history: seq<Event>, session: string, n: nat) {
    && (forall e :: e in events ==> e in history && e.session == session)
    && |events| <= n
    && (forall e :: e in history && e.session == session && e !in events ==>
          |events| == n && forall r :: r in events ==> e.seqNo < r.seqNo)
  }

  function RingOf(ring: map<string, seq<Event>>, session: string): seq<Event> {
    if session in ring then ring[session] else []
  }

  function WithPush(ring: map<string, seq<Event>>, kept: Event): map<string, seq<Event>> {
    ring[kept.session := LastN(RingOf(ring, kept.session) + [kept], RING_SIZE)]
  }

  /** Every session's ring is the last RING_SIZE events appended for it. */
  ghost predicate RingMatches(ring: map<string, seq<Event>>, history: seq<Event>) {
    forall s :: RingOf(ring, s) == LastN(OfSession(history, s), RING_SIZE)
  }

  function FileOf(files: map<string, seq<Event>>, session: string): seq<Event> {
    if SafeKey(session) in files then files[SafeKey(session)] else []
  }

  function FileAppend(files: map<string, seq<Event>>, e: Event): map<string, seq<Event>> {
    files[SafeKey(e.session) := FileOf(files, e.session) + [e]]
  }

  /** The events of a session, in order. */
  function OfSession(events: seq<Event>, session: string): seq<Event> {
    if events == [] then []
    else
      var n := |events| - 1;
      OfSession(events[..n], session) + if events[n].session == session then [events[n]] else []
  }

  lemma OfSessionSnoc(events: seq<Event>, e: Event, session: string)
    ensures OfSession(events + [e], session) == OfSession(events, session) + if e.session == session then [e] else []
  {
    assert (events + [e])[..|events|] == events;
  }

  lemma LastSnoc<T>(s: seq<T>, x: T, n: nat)
    requires n > 0
    ensures LastN(s + [x], n) == LastN(LastN(s, n) + [x], n)
  {
  }

  lemma LastOfLast<T>(s: seq<T>, n: nat, m: nat)
    ensures LastN(LastN(s, n), m) == LastN(s, if m < n then m else n)
  {
  }

  lemma RingStep(before: seq<Event>, kept: Event, session: string)
    ensures kept.session == session ==>
              LastN(OfSession(before + [kept], session), RING_SIZE)
              == LastN(LastN(OfSession(before, session), RING_SIZE) + [kept], RING_SIZE)
    ensures kept.session != session ==> OfSession(before + [kept], session) == OfSession(before, session)
  {
    OfSessionSnoc(before, kept, session);
    LastSnoc(OfSession(before, session), kept, RING_SIZE);
    assert OfSession(before, session) + [] == OfSession(before, session);
  }

  lemma AppendKeeps(redact: Redactor, given: seq<Event>, history: seq<Event>, e: Event, kept: Event)
    requires Numbered(history) && AllRedacted(redact, given, history) && kept == Kept(redact, e, |history| + 1)
    ensures IsRedacted(redact, e, kept)
    ensures Numbered(history + [kept]) && AllRedacted(redact, given + [e], history + [kept])
  {
    NumberedSnoc(history, kept);
  }

  lemma AppendWrites(disk: map<string, seq<Event>>, history: seq<Event>, worked: seq<bool>, kept: Event, writes: bool,
                     files: map<string, seq<Event>>)
    requires |worked| == |history| && files == Written(disk, Recorded(history, worked))
    ensures Written(disk, Recorded(history + [kept], worked + [writes]))
            == if writes then FileAppend(files, kept) else files
  {
    RecordedSnoc(history, worked, kept, writes);
    WrittenSnoc(disk, Recorded(history, worked), kept);
  }

  lemma RingPushed(ring: map<string, seq<Event>>, history: seq<Event>, kept: Event, after: map<string, seq<Event>>)
    requires RingMatches(ring, history) && after == WithPush(ring, kept)
    ensures RingMatches(after, history + [kept])
  {
    forall s
      ensures RingOf(after, s) == LastN(OfSession(history + [kept], s), RING_SIZE)
    {
      assert RingOf(ring, s) == LastN(OfSession(history, s), RING_SIZE);
      RingStep(history, kept, s);
    }
  }

  // ---- The files against the history ----

  /** The files after appending `events`, all writes succeeding. */
  function Written(disk: map<string, seq<Event>>, events: seq<Event>): map<string, seq<Event>> {
    if events == [] then disk
    else FileAppend(Written(disk, events[..|events| - 1]), events[|events| - 1])
  }

  predicate AllTrue(bs: seq<bool>) {
    forall i :: 0 <= i < |bs| ==> bs[i]
  }

  /** The events whose write worked. */
  function Recorded(events: seq<Event>, worked: seq<bool>): seq<Event>
    requires |worked| == |events|
  {
    if events == [] then []
    else
      var n := |events| - 1;
      Recorded(events[..n], worked[..n]) + if worked[n] then [events[n]] else []
  }

  lemma RecordedSnoc(events: seq<Event>, worked: seq<bool>, e: Event, works: bool)
    requires |worked| == |events|
    ensures Recorded(events + [e], worked + [works]) == Recorded(events, worked) + if works then [e] else []
    ensures !works ==> Recorded(events + [e], worked + [works]) == Recorded(events, worked)
  {
    assert (events + [e])[..|events|] == events && (worked + [works])[..|worked|] == worked;
  }

  lemma {:induction false} AllRecorded(events: seq<Event>, worked: seq<bool>)
    requires |worked| == |events| && AllTrue(worked)
    ensures Recorded(events, worked) == events
  {
    if events != [] {
      var n := |events| - 1;
      AllRecorded(events[..n], worked[..n]);
      FrontAndLast(events);
    }
  }

  lemma {:induction false} RecordedKnown(events: seq<Event>, worked: seq<bool>)
    requires |worked| == |events| && Numbered(events)
    ensures forall e :: e in Recorded(events, worked) ==> 1 <= e.seqNo <= |events|
  {
    if events != [] {
      var n := |events| - 1;
      RecordedKnown(events[..n], worked[..n]);
    }
  }

  lemma {:induction false} RecordedAscends(events: seq<Event>, worked: seq<bool>)
    requires |worked| == |events| && Numbered(events)
    ensures Ascending(Recorded(events, worked))
  {
    if events != [] {
      var n := |events| - 1;
      var before := Recorded(events[..n], worked[..n]);
      RecordedAscends(events[..n], worked[..n]);
      RecordedKnown(events[..n], worked[..n]);
      assert forall i :: 0 <= i < |before| ==> before[i] in before;
    }
  }

  /** An event is recorded exactly when its write worked. */
  lemma {:induction false} RecordedExactly(events: seq<Event>, worked: seq<bool>, i: nat)
    requires |worked| == |events| && Numbered(events) && i < |events|
    ensures events[i] in Recorded(events, worked) <==> worked[i]
  {
    var n := |events| - 1;
    RecordedKnown(events[..n], worked[..n]);
    if i < n {
      RecordedExactly(events[..n], worked[..n], i);
    }
  }

  lemma WrittenSnoc(disk: map<string, seq<Event>>, events: seq<Event>, e: Event)
    ensures Written(disk, events + [e]) == FileAppend(Written(disk, events), e)
  {
    assert (events + [e])[..|events|] == events;
  }

  ghost predicate Suffix<T>(a: seq<T>, b: seq<T>) {
    |a| <= |b| && b[|b| - |a|..] == a
  }

  lemma FileGains(files: map<string, seq<Event>>, e: Event, session: string)
    ensures OfSession(FileOf(FileAppend(files, e), session), session)
            == OfSession(FileOf(files, session), session) + if e.session == session then [e] else []
  {
    if SafeKey(e.session) == SafeKey(session) {
      OfSessionSnoc(FileOf(files, session), e, session);
    }
  }

  /** A session's part of its file is what the file started with, then its whole history: files
      shared between sessions keep every one of them complete and in order. */
  lemma {:induction false} FileKeepsSession(disk: map<string, seq<Event>>, events: seq<Event>, session: string)
    ensures OfSession(FileOf(Written(disk, events), session), session)
            == OfSession(FileOf(disk, session), session) + OfSession(events, session)
  {
    if events != [] {
      var n := |events| - 1;
      var before, e := Written(disk, events[..n]), events[n];
      FileKeepsSession(disk, events[..n], session);
      FileGains(before, e, session);
    }
  }

  /** No other session of the history writes to this session's file. */
  ghost predicate OwnFile(events: seq<Event>, session: string) {
    forall i :: 0 <= i < |events| && SafeKey(events[i].session) == SafeKey(session) ==> events[i].session == session
  }

  lemma {:induction false} OwnFileIsHistory(disk: map<string, seq<Event>>, events: seq<Event>, session: string)
    requires OwnFile(events, session)
    ensures FileOf(Written(disk, events), session) == FileOf(disk, session) + OfSession(events, session)
  {
    if events != [] {
      OwnFileIsHistory(disk, events[..|events| - 1], session);
    }
  }

  /** With all writes succeeding and the session's key its own, what Recent returns is a suffix of
      what All returns, whatever an earlier process left in the file. */
  lemma RecentIsSuffixOfAll(disk: map<string, seq<Event>>, events: seq<Event>, session: string, n: nat)
    requires OwnFile(events, session)
    ensures Suffix(LastN(OfSession(events, session), n), FileOf(Written(disk, events), session))
  {
    OwnFileIsHistory(disk, events, session);
  }

  /** In a shared file it still is a suffix of the session's own lines. */
  lemma RecentIsSuffixOfOwnLines(disk: map<string, seq<Event>>, events: seq<Event>, session: string, n: nat)
    ensures Suffix(LastN(OfSession(events, session), n), OfSession(FileOf(Written(disk, events), session), session))
  {
    FileKeepsSession(disk, events, session);
  }

  /** The last `k` lines of a file are all the session's. */
  ghost predicate EndsOwn(file: seq<Event>, session: string, k: nat) {
    k <= |file| && forall i :: |file| - k <= i < |file| ==> file[i].session == session
  }

  lemma {:induction false} OwnTail(file: seq<Event>, session: string, k: nat)
    requires EndsOwn(file, session, k)
    ensures Suffix(file[|file| - k..], OfSession(file, session))
  {
    if k > 0 {
      var n := |file| - 1;
      OwnTail(file[..n], session, k - 1);
      assert file[|file| - k..] == file[..n][n - (k - 1)..] + [file[n]];
    }
  }

  lemma {:induction false} OnlyOwn(events: seq<Event>, session: string)
    ensures forall e :: e in OfSession(events, session) ==> e.session == session
  {
    if events != [] {
      OnlyOwn(events[..|events| - 1], session);
    }
  }

  lemma SameSuffix<T>(a: seq<T>, b: seq<T>, s: seq<T>)
    requires Suffix(a, s) && Suffix(b, s) && |a| == |b|
    ensures a == b
  {
  }

  /** A suffix of a file's own lines is one of the file exactly when it ends with that many of them. */
  lemma SuffixIff(recent: seq<Event>, file: seq<Event>, session: string)
    requires Suffix(recent, OfSession(file, session)) && forall e :: e in recent ==> e.session == session
    ensures Suffix(recent, file) <==> EndsOwn(file, session, |recent|)
  {
    if EndsOwn(file, session, |recent|) {
      OwnTail(file, session, |recent|);
      SameSuffix(recent, file[|file| - |recent|..], OfSession(file, session));
    }
    if Suffix(recent, file) {
      assert forall i :: |file| - |recent| <= i < |file| ==> file[i] == recent[i - (|file| - |recent|)];
    }
  }

  lemma LastMembers(events: seq<Event>, n: nat)
    ensures forall e :: e in LastN(events, n) ==> e in events
  {
  }

  /** What Recent returns is a suffix of what All returns exactly when that many of the file's last
      lines are the session's. */
  lemma RecentIsSuffixIff(disk: map<string, seq<Event>>, events: seq<Event>, session: string, n: nat)
    ensures var recent, file := LastN(OfSession(events, session), n), FileOf(Written(disk, events), session);
            Suffix(recent, file) <==> EndsOwn(file, session, |recent|)
  {
    OnlyOwn(events, session);
    LastMembers(OfSession(events, session), n);
    RecentIsSuffixOfOwnLines(disk, events, session, n);
    SuffixIff(LastN(OfSession(events, session), n), FileOf(Written(disk, events), session), session);
  }

  lemma RecentAgainstFile(disk: map<string, seq<Event>>, history: seq<Event>, worked: seq<bool>, session: string,
                          n: nat, recent: seq<Event>)
    requires |worked| == |history| && recent == LastN(OfSession(history, session), n)
    ensures var file := FileOf(Written(disk, Recorded(history, worked)), session);
            AllTrue(worked) ==>
              (OwnFile(history, session) ==> Suffix(recent, file)) &&
              (Suffix(recent, file) <==> EndsOwn(file, session, |recent|))
  {
    if AllTrue(worked) {
      AllRecorded(history, worked);
      RecentIsSuffixIff(disk, history, session, n);
      if OwnFile(history, session) {
        RecentIsSuffixOfAll(disk, history, session, n);
      }
    }
  }

  /** A case where they are not: "a/b" and "a_b" share a file, and the other's event comes last. */
  lemma SharedFileBreaksSuffix(x: Event, y: Event)
    requires x.session == "a/b" && y.session == "a_b"
    ensures !Suffix(LastN(OfSession([x, y], "a/b"), 1), FileOf(Written(map[], [x, y]), "a/b"))
  {
    assert Cleaned("a/b") == "a_b" == Cleaned("a_b");
    assert [x, y][..1] == [x] && [x][..0] == [];
    assert OfSession([], "a/b") == [] && OfSession([x], "a/b") == [] + [x] && OfSession([x, y], "a/b") == [x] + [];
    assert Written(map[], [x]) == FileAppend(map[], x);
    assert Written(map[], [x, y]) == FileAppend(Written(map[], [x]), y);
    assert FileOf(Written(map[], [x, y]), "a/b") == [x, y];
  }

  /** Strictly increasing sequence numbers. */
  ghost predicate Ascending(events: seq<Event>) {
    forall i, j :: 0 <= i < j < |events| ==> events[i].seqNo < events[j].seqNo
  }

  /** A session's events, read off the history. */
  lemma {:induction false} OfSessionMembers(events: seq<Event>, session: string)
    ensures forall e :: e in OfSession(events, session) <==> e in events && e.session == session
  {
    if events != [] {
      OfSessionMembers(events[..|events| - 1], session);
      FrontAndLast(events);
    }
  }

  lemma LastNewest(s: seq<Event>, n: nat)
    requires Ascending(s)
    ensures var r := LastN(s, n);
            |r| <= n && (forall e :: e in r ==> e in s) &&
            (forall e :: e in s && e !in r ==> |r| == n && forall x :: x in r ==> e.seqNo < x.seqNo)
  {
    var r := LastN(s, n);
    if |s| > n {
      var cut := |s| - n;
      assert s == s[..cut] + r;
      forall e, x | e in s && e !in r && x in r
        ensures e.seqNo < x.seqNo
      {
        var i :| 0 <= i < |s| && s[i] == e;
        var j :| 0 <= j < |r| && r[j] == x;
        assert i < cut && s[cut + j] == x;
      }
    }
  }

  lemma RecentMeans(redact: Redactor, given: seq<Event>, history: seq<Event>, session: string, n: nat,
                    events: seq<Event>)
    requires Numbered(history) && AllRedacted(redact, given, history) && events == LastN(OfSession(history, session), n)
    ensures IsRecent(events, history, session, n)
    ensures forall e :: e in events ==> exists g :: g in given && IsRedacted(redact, g, e)
  {
    SessionSeqIncreases(history, session);
    OfSessionMembers(history, session);
    LastNewest(OfSession(history, session), n);
    forall e | e in events
      ensures exists g :: g in given && IsRedacted(redact, g, e)
    {
      assert e in history;
      var i :| 0 <= i < |history| && history[i] == e;
      assert given[i] in given && IsRedacted(redact, given[i], e);
    }
  }

  lemma RecentAscends(events: seq<Event>, session: string, n: nat)
    requires Numbered(events)
    ensures Ascending(LastN(OfSession(events, session), n))
  {
    SessionSeqIncreases(events, session);
  }

  /** The kept sequence numbers of a session strictly increase. */
  lemma {:induction false} SessionSeqIncreases(events: seq<Event>, session: string)
    requires Numbered(events)
    ensures Ascending(OfSession(events, session))
    ensures forall i :: 0 <= i < |OfSession(events, session)| ==> OfSession(events, session)[i].seqNo <= |events|
  {
    if events != [] {
      SessionSeqIncreases(events[..|events| - 1], session);
    }
  }
}
