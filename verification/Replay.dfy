/** Session replay: the timeline and the snapshot at a time of sidecar/internal/replay/replay.go.
    Times are nanoseconds. */
module Replay {
  import opened Options
  import opened Sequences

  datatype Kind = ToolCall | FileEdit | Command | Screenshot | Console | OtherKind(name: string)

  datatype Event = Event(ts: int, kind: Kind, summary: string, refs: map<string, string>, risk: string)

  const SECOND := 1000000000

  function RiskRank(r: string): nat {
    if r == "high" then 3 else if r == "medium" then 2 else if r == "low" then 1 else 0
  }

  ghost predicate Sorted(events: seq<Event>) {
    forall i, j :: 0 <= i < j < |events| ==> events[i].ts <= events[j].ts
  }

  // ---- Buckets ----

  /** Go's division of durations: it truncates toward zero. */
  function Quotient(a: int, b: int): int
    requires b > 0
  {
    if a >= 0 then a / b else -((-a) / b)
  }

  function Key(e: Event, start: int, bucket: int): int
    requires bucket > 0
  {
    Quotient(e.ts - start, bucket)
  }

  /** The events with bucket key `k`, in order. */
  function InBucket(events: seq<Event>, start: int, bucket: int, k: int): seq<Event>
    requires bucket > 0
  {
    if events == [] then []
    else
      var n := |events| - 1;
      InBucket(events[..n], start, bucket, k) + if Key(events[n], start, bucket) == k then [events[n]] else []
  }

  lemma {:induction false} InBucketMembers(events: seq<Event>, start: int, bucket: int, k: int, e: Event)
    requires bucket > 0
    ensures e in InBucket(events, start, bucket, k) <==> e in events && Key(e, start, bucket) == k
  {
    if events != [] {
      var n := |events| - 1;
      InBucketMembers(events[..n], start, bucket, k, e);
      assert events == events[..n] + [events[n]];
    }
  }

  /** The first risk of highest rank, or "" when none ranks above it. */
  function MaxRisk(es: seq<Event>): (r: string)
    ensures forall e :: e in es ==> RiskRank(e.risk) <= RiskRank(r)
    ensures r == "" || exists e :: e in es && e.risk == r
  {
    if es == [] then ""
    else
      var n := |es| - 1;
      var r := MaxRisk(es[..n]);
      assert forall e :: e in es ==> e in es[..n] || e == es[n];
      assert es[n] in es && forall e :: e in es[..n] ==> e in es;
      if RiskRank(es[n].risk) > RiskRank(r) then es[n].risk else r
  }

  datatype Moment = Moment(t: int, count: nat, kind: Kind, maxRisk: string)

  function MomentOf(es: seq<Event>, start: int, bucket: int, k: int): Moment
    requires es != []
  {
    Moment(start + k * bucket, |es|, es[|es| - 1].kind, MaxRisk(es))
  }

  ghost predicate Increasing(keys: seq<int>) {
    forall i, j :: 0 <= i < j < |keys| ==> keys[i] < keys[j]
  }

  ghost predicate KeysOf(keys: seq<int>, events: seq<Event>, start: int, bucket: int)
    requires bucket > 0
  {
    (forall e :: e in events ==> Key(e, start, bucket) in keys) &&
    (forall i :: 0 <= i < |keys| ==> InBucket(events, start, bucket, keys[i]) != [])
  }

  // ---- The sort of the bucket keys ----

  function Insert(x: int, s: seq<int>): (r: seq<int>)
    requires Increasing(s) && x !in s
    ensures Increasing(r) && |r| == |s| + 1
    ensures forall y :: y in r <==> y == x || y in s
  {
    if s == [] then [x]
    else if x < s[0] then
      assert forall y :: y in [x] + s <==> y == x || y in s;
      [x] + s
    else
      var r := Insert(x, s[1..]);
      assert s[0] in s && x != s[0] && forall i :: 0 <= i < |s[1..]| ==> s[1..][i] == s[i + 1];
      assert forall y :: y in s[1..] ==> s[0] < y;
      assert forall y :: y in r ==> s[0] < y;
      assert forall i :: 0 <= i < |r| ==> r[i] in r;
      [s[0]] + r
  }

  ghost predicate Distinct(s: seq<int>) {
    forall i, j :: 0 <= i < j < |s| ==> s[i] != s[j]
  }

  function Sort(s: seq<int>): (r: seq<int>)
    requires Distinct(s)
    ensures Increasing(r) && |r| == |s|
    ensures forall y :: y in r <==> y in s
  {
    if s == [] then []
    else
      assert s == [s[0]] + s[1..];
      Insert(s[0], Sort(s[1..]))
  }

  // ---- Timeline ----

  function BucketLength(bucketSeconds: int): (bucket: int)
    ensures bucket > 0
  {
    (if bucketSeconds <= 0 then 5 else bucketSeconds) * SECOND
  }

  /** What the loop does to the moment of an event's bucket. */
  function AddEvent(m: Moment, e: Event): Moment {
    m.(count := m.count + 1, kind := e.kind,
       maxRisk := if RiskRank(e.risk) > RiskRank(m.maxRisk) then e.risk else m.maxRisk)
  }

  lemma InBucketSnoc(events: seq<Event>, start: int, bucket: int, k: int, e: Event)
    requires bucket > 0
    ensures InBucket(events + [e], start, bucket, k)
            == InBucket(events, start, bucket, k) + if Key(e, start, bucket) == k then [e] else []
  {
    assert (events + [e])[..|events|] == events;
  }

  lemma MomentSnoc(es: seq<Event>, e: Event, start: int, bucket: int, k: int)
    ensures MomentOf(es + [e], start, bucket, k)
            == AddEvent(if es == [] then Moment(start + k * bucket, 0, e.kind, "")
                        else MomentOf(es, start, bucket, k), e)
  {
    assert (es + [e])[..|es|] == es;
  }

  /** Bucket `k` holds the moment of the events seen with that key, if there are any. */
  ghost predicate FiledAt(events: seq<Event>, start: int, bucket: int, byBucket: map<int, Moment>, k: int)
    requires bucket > 0
  {
    var es := InBucket(events, start, bucket, k);
    (k in byBucket <==> es != []) && (k in byBucket ==> byBucket[k] == MomentOf(es, start, bucket, k))
  }

  ghost predicate Filed(events: seq<Event>, start: int, bucket: int, byBucket: map<int, Moment>, order: seq<int>)
    requires bucket > 0
  {
    && Distinct(order)
    && (forall k :: k in byBucket <==> k in order)
    && (forall k :: FiledAt(events, start, bucket, byBucket, k))
  }

  function Found(byBucket: map<int, Moment>, k: int, start: int, bucket: int, e: Event): Moment {
    if k in byBucket then byBucket[k] else Moment(start + k * bucket, 0, e.kind, "")
  }

  lemma FiledAtStep(events: seq<Event>, start: int, bucket: int, byBucket: map<int, Moment>, e: Event, k: int, j: int)
    requires bucket > 0 && k == Key(e, start, bucket)
    requires FiledAt(events, start, bucket, byBucket, j)
    ensures FiledAt(events + [e], start, bucket, byBucket[k := AddEvent(Found(byBucket, k, start, bucket, e), e)], j)
  {
    InBucketSnoc(events, start, bucket, j, e);
    if j == k {
      MomentSnoc(InBucket(events, start, bucket, k), e, start, bucket, k);
    } else {
      assert InBucket(events, start, bucket, j) + [] == InBucket(events, start, bucket, j);
    }
  }

  lemma FiledStep(events: seq<Event>, start: int, bucket: int, byBucket: map<int, Moment>, order: seq<int>, e: Event,
                  k: int, byBucket': map<int, Moment>, order': seq<int>)
    requires bucket > 0 && Filed(events, start, bucket, byBucket, order) && k == Key(e, start, bucket)
    requires byBucket' == byBucket[k := AddEvent(Found(byBucket, k, start, bucket, e), e)]
    requires order' == if k in byBucket then order else order + [k]
    ensures Filed(events + [e], start, bucket, byBucket', order')
  {
    forall j
      ensures FiledAt(events + [e], start, bucket, byBucket', j)
    {
      FiledAtStep(events, start, bucket, byBucket, e, k, j);
    }
    forall j
      ensures j in byBucket' <==> j in order'
    {
      assert j in byBucket <==> j in order;
    }
  }

  lemma FiledKeys(events: seq<Event>, start: int, bucket: int, byBucket: map<int, Moment>, order: seq<int>)
    requires bucket > 0 && Filed(events, start, bucket, byBucket, order)
    ensures KeysOf(order, events, start, bucket)
    ensures forall k :: k in order ==>
              k in byBucket && InBucket(events, start, bucket, k) != [] &&
              byBucket[k] == MomentOf(InBucket(events, start, bucket, k), start, bucket, k)
  {
    forall e | e in events
      ensures Key(e, start, bucket) in order
    {
      var k := Key(e, start, bucket);
      InBucketMembers(events, start, bucket, k, e);
      assert FiledAt(events, start, bucket, byBucket, k);
    }
    forall k | k in order
      ensures k in byBucket && InBucket(events, start, bucket, k) != [] &&
              byBucket[k] == MomentOf(InBucket(events, start, bucket, k), start, bucket, k)
    {
      assert k in byBucket <==> k in order;
      assert FiledAt(events, start, bucket, byBucket, k);
    }
  }

  /** The session's bounds and its moments, and the bucket keys of the moments. */
  method Timeline(events: seq<Event>, bucketSeconds: int)
      returns (start: int, end: int, moments: seq<Moment>, ghost keys: seq<int>)
    ensures events == [] ==> moments == []
    ensures events != [] ==>
              start == events[0].ts && end == events[|events| - 1].ts &&
              Describes(events, start, (if bucketSeconds <= 0 then 5 else bucketSeconds) * 1000000000, keys, moments)
  {
    if |events| == 0 {
      return 0, 0, [], [];
    }
    var bucketSecs := if bucketSeconds <= 0 then 5 else bucketSeconds;
    start := events[0].ts;
    end := events[|events| - 1].ts;
    var bucket := bucketSecs * SECOND;

    var byBucket: map<int, Moment> := map[];
    var order: seq<int> := [];
    for i := 0 to |events|
      invariant Filed(events[..i], start, bucket, byBucket, order)
    {
      var e := events[i];
      var key := Quotient(e.ts - start, bucket);
      var m := Found(byBucket, key, start, bucket, e);
      ghost var byBucket0, order0 := byBucket, order;
      if key !in byBucket {
        order := order + [key];
      }
      byBucket := byBucket[key := AddEvent(m, e)];
      FiledStep(events[..i], start, bucket, byBucket0, order0, e, key, byBucket, order);
      TakeSnoc(events, i);
    }
    assert events[..|events|] == events;
    FiledKeys(events, start, bucket, byBucket, order);
    keys := Sort(order);
    SortedKeys(order, events, start, bucket);
    moments := Pick(byBucket, Sort(order));
  }

  lemma SortedKeys(order: seq<int>, events: seq<Event>, start: int, bucket: int)
    requires bucket > 0 && Distinct(order) && KeysOf(order, events, start, bucket)
    ensures KeysOf(Sort(order), events, start, bucket)
    ensures forall i :: 0 <= i < |Sort(order)| ==> Sort(order)[i] in order
  {
    var keys := Sort(order);
    forall i | 0 <= i < |keys|
      ensures keys[i] in order && InBucket(events, start, bucket, keys[i]) != []
    {
      assert keys[i] in keys;
      var j :| 0 <= j < |order| && order[j] == keys[i];
    }
  }

  /** The last loop of Timeline. */
  method Pick(byBucket: map<int, Moment>, order: seq<int>) returns (moments: seq<Moment>)
    requires forall j :: 0 <= j < |order| ==> order[j] in byBucket
    ensures |moments| == |order| && forall j :: 0 <= j < |order| ==> moments[j] == byBucket[order[j]]
  {
    moments := [];
    for i := 0 to |order|
      invariant |moments| == i
      invariant forall j :: 0 <= j < i ==> moments[j] == byBucket[order[j]]
    {
      moments := moments + [byBucket[order[i]]];
    }
  }

  /** Moment j is the moment of the events with key keys[j]; the keys are those in use, ascending. */
  ghost predicate Describes(events: seq<Event>, start: int, bucket: int, keys: seq<int>, moments: seq<Moment>)
    requires bucket > 0
  {
    && Increasing(keys) && KeysOf(keys, events, start, bucket) && |moments| == |keys|
    && forall j :: 0 <= j < |keys| ==>
         InBucket(events, start, bucket, keys[j]) != [] &&
         moments[j] == MomentOf(InBucket(events, start, bucket, keys[j]), start, bucket, keys[j])
  }

  // ---- What the timeline conserves ----

  function TotalCount(moments: seq<Moment>): nat {
    if moments == [] then 0 else moments[0].count + TotalCount(moments[1..])
  }

  /** Total size of the buckets `keys`. */
  function BucketSizes(events: seq<Event>, start: int, bucket: int, keys: seq<int>): nat
    requires bucket > 0
  {
    if keys == [] then 0
    else |InBucket(events, start, bucket, keys[0])| + BucketSizes(events, start, bucket, keys[1..])
  }

  lemma {:induction false} SizesSnoc(events: seq<Event>, start: int, bucket: int, keys: seq<int>, e: Event)
    requires bucket > 0 && Increasing(keys)
    ensures BucketSizes(events + [e], start, bucket, keys)
            == BucketSizes(events, start, bucket, keys) + if Key(e, start, bucket) in keys then 1 else 0
  {
    if keys != [] {
      var k, rest := keys[0], keys[1..];
      InBucketSnoc(events, start, bucket, k, e);
      SizesSnoc(events, start, bucket, rest, e);
      assert keys == [k] + rest;
      assert forall j :: 0 <= j < |rest| ==> rest[j] == keys[j + 1];
    }
  }

  lemma {:induction false} SizesCover(events: seq<Event>, start: int, bucket: int, keys: seq<int>)
    requires bucket > 0 && Increasing(keys) && forall e :: e in events ==> Key(e, start, bucket) in keys
    ensures BucketSizes(events, start, bucket, keys) == |events|
    decreases |events|
  {
    if events == [] {
      NoEvents(start, bucket, keys);
    } else {
      var n := |events| - 1;
      assert events == events[..n] + [events[n]] && events[n] in events;
      SizesCover(events[..n], start, bucket, keys);
      SizesSnoc(events[..n], start, bucket, keys, events[n]);
    }
  }

  lemma {:induction false} NoEvents(start: int, bucket: int, keys: seq<int>)
    requires bucket > 0
    ensures BucketSizes([], start, bucket, keys) == 0
  {
    if keys != [] {
      NoEvents(start, bucket, keys[1..]);
    }
  }

  lemma {:induction false} CountsAreSizes(events: seq<Event>, start: int, bucket: int, keys: seq<int>,
                                          moments: seq<Moment>)
    requires bucket > 0 && |moments| == |keys|
    requires forall j :: 0 <= j < |keys| ==> moments[j].count == |InBucket(events, start, bucket, keys[j])|
    ensures TotalCount(moments) == BucketSizes(events, start, bucket, keys)
    decreases |keys|
  {
    if keys != [] {
      CountsAreSizes(events, start, bucket, keys[1..], moments[1..]);
    }
  }

  /** No event is lost or counted twice, whether or not the log is in time order. */
  lemma TimelineConserves(events: seq<Event>, start: int, bucket: int, keys: seq<int>, moments: seq<Moment>)
    requires bucket > 0 && Describes(events, start, bucket, keys, moments)
    ensures TotalCount(moments) == |events|
  {
    CountsAreSizes(events, start, bucket, keys, moments);
    SizesCover(events, start, bucket, keys);
  }

  lemma {:induction false} TimesStep(a: int, b: int, bucket: int)
    requires bucket > 0 && a < b
    ensures a * bucket + bucket <= b * bucket
    decreases b - a
  {
    if a + 1 < b {
      TimesStep(a, b - 1, bucket);
    }
    assert b * bucket == (b - 1) * bucket + bucket;
  }

  /** Moments are at least one bucket apart, in ascending order. */
  lemma MomentsAscend(events: seq<Event>, start: int, bucket: int, keys: seq<int>, moments: seq<Moment>, i: nat, j: nat)
    requires bucket > 0 && Describes(events, start, bucket, keys, moments) && i < j < |moments|
    ensures moments[i].t + bucket <= moments[j].t
  {
    TimesStep(keys[i], keys[j], bucket);
  }

  /** The window of a bucket holds an event of that bucket exactly when the event is not before
      the start, or on a bucket boundary. */
  lemma EventInWindowIff(e: Event, start: int, bucket: int)
    requires bucket > 0
    ensures var t := start + Key(e, start, bucket) * bucket;
            t <= e.ts < t + bucket <==> e.ts >= start || (start - e.ts) % bucket == 0
  {
    if e.ts >= start {
      Division(e.ts - start, bucket);
    } else {
      Division(start - e.ts, bucket);
    }
  }

  lemma Division(a: nat, b: int)
    requires b > 0
    ensures a == (a / b) * b + a % b && 0 <= a % b < b
    ensures (-(a / b)) * b == -((a / b) * b)
  {
  }

  /** In a log in time order every event lies in the window of exactly one moment, the one that
      counts it. */
  lemma EventInOneWindow(events: seq<Event>, bucket: int, keys: seq<int>, moments: seq<Moment>, e: Event)
      returns (i: nat)
    requires bucket > 0 && Sorted(events) && e in events && Describes(events, events[0].ts, bucket, keys, moments)
    ensures i < |moments| && keys[i] == Key(e, events[0].ts, bucket)
    ensures forall j :: 0 <= j < |moments| ==> (moments[j].t <= e.ts < moments[j].t + bucket <==> j == i)
  {
    var start := events[0].ts;
    var n :| 0 <= n < |events| && events[n] == e;
    assert e.ts >= start;
    i :| 0 <= i < |keys| && keys[i] == Key(e, start, bucket);
    EventInWindowIff(e, start, bucket);
    assert moments[i].t == start + keys[i] * bucket;
    forall j | 0 <= j < |moments|
      ensures moments[j].t <= e.ts < moments[j].t + bucket <==> j == i
    {
      if j < i {
        MomentsAscend(events, start, bucket, keys, moments, j, i);
      } else if i < j {
        MomentsAscend(events, start, bucket, keys, moments, i, j);
      }
    }
  }

  /** A moment's risk ranks at least as high as every event of its bucket and is one of theirs, or
      "" when none ranks at all; its kind is that of the bucket's last event. */
  lemma MomentSummary(events: seq<Event>, start: int, bucket: int, keys: seq<int>, moments: seq<Moment>, j: nat,
                      e: Event)
    requires bucket > 0 && Describes(events, start, bucket, keys, moments) && j < |moments|
    ensures var es := InBucket(events, start, bucket, keys[j]);
            (e in events && Key(e, start, bucket) == keys[j] ==> RiskRank(e.risk) <= RiskRank(moments[j].maxRisk)) &&
            (moments[j].maxRisk == "" ||
             exists x :: x in events && Key(x, start, bucket) == keys[j] && x.risk == moments[j].maxRisk) &&
            moments[j].kind == es[|es| - 1].kind
  {
    var es := InBucket(events, start, bucket, keys[j]);
    InBucketMembers(events, start, bucket, keys[j], e);
    if moments[j].maxRisk != "" {
      var x :| x in es && x.risk == MaxRisk(es);
      InBucketMembers(events, start, bucket, keys[j], x);
    }
  }

  /** Some event of the bucket has this risk. */
  ghost predicate HasRisk(events: seq<Event>, start: int, bucket: int, k: int, risk: string)
    requires bucket > 0
  {
    exists e :: e in events && Key(e, start, bucket) == k && e.risk == risk
  }

  /** A moment is marked with the gravest risk in its bucket: high before medium before low, and
      with nothing when none of these occurs. */
  lemma GravestRisk(events: seq<Event>, start: int, bucket: int, keys: seq<int>, moments: seq<Moment>, j: nat)
    requires bucket > 0 && Describes(events, start, bucket, keys, moments) && j < |moments|
    ensures moments[j].maxRisk ==
            if HasRisk(events, start, bucket, keys[j], "high") then "high"
            else if HasRisk(events, start, bucket, keys[j], "medium") then "medium"
            else if HasRisk(events, start, bucket, keys[j], "low") then "low"
            else ""
  {
    var es := InBucket(events, start, bucket, keys[j]);
    forall e
      ensures e in es <==> e in events && Key(e, start, bucket) == keys[j]
    {
      InBucketMembers(events, start, bucket, keys[j], e);
    }
    MaxRiskGravest(es);
  }

  ghost predicate Risky(es: seq<Event>, risk: string) {
    exists e :: e in es && e.risk == risk
  }

  lemma {:induction false} MaxRiskGravest(es: seq<Event>)
    ensures MaxRisk(es) ==
            if Risky(es, "high") then "high" else if Risky(es, "medium") then "medium"
            else if Risky(es, "low") then "low" else ""
  {
    if es != [] {
      var n := |es| - 1;
      MaxRiskGravest(es[..n]);
      forall risk
        ensures Risky(es, risk) <==> Risky(es[..n], risk) || es[n].risk == risk
      {
        RiskySnoc(es[..n], es[n], es, risk);
      }
    }
  }

  lemma RiskySnoc(front: seq<Event>, e: Event, es: seq<Event>, risk: string)
    requires es != [] && front == es[..|es| - 1] && e == es[|es| - 1]
    ensures Risky(es, risk) <==> Risky(front, risk) || e.risk == risk
  {
    FrontAndLast(es);
    assert forall x :: x in es <==> x in front || x == e;
  }

  // ---- The dominant kind ----

  function KindCount(es: seq<Event>, kind: Kind): nat {
    if es == [] then 0
    else KindCount(es[..|es| - 1], kind) + if es[|es| - 1].kind == kind then 1 else 0
  }

  /** No kind at all occurs more often than `kind`. */
  ghost predicate Dominant(es: seq<Event>, kind: Kind) {
    forall other :: KindCount(es, other) <= KindCount(es, kind)
  }

  lemma {:induction false} KindOccurs(es: seq<Event>, kind: Kind)
    ensures KindCount(es, kind) > 0 <==> exists e :: e in es && e.kind == kind
  {
    if es != [] {
      var n := |es| - 1;
      KindOccurs(es[..n], kind);
      assert es == es[..n] + [es[n]];
    }
  }

  /** The kinds that occur decide it. */
  lemma DominantAmongEvents(es: seq<Event>, kind: Kind)
    ensures Dominant(es, kind) <==> forall e :: e in es ==> KindCount(es, e.kind) <= KindCount(es, kind)
  {
    if forall e :: e in es ==> KindCount(es, e.kind) <= KindCount(es, kind) {
      forall other
        ensures KindCount(es, other) <= KindCount(es, kind)
      {
        KindOccurs(es, other);
      }
    }
  }

  /** A moment's kind is the dominant one of its bucket exactly when no event of the bucket has a
      kind that occurs more often in it than the kind of the bucket's last event. */
  lemma KindIsDominantIff(events: seq<Event>, start: int, bucket: int, keys: seq<int>, moments: seq<Moment>, j: nat)
    requires bucket > 0 && Describes(events, start, bucket, keys, moments) && j < |moments|
    ensures var es := InBucket(events, start, bucket, keys[j]);
            Dominant(es, moments[j].kind) <==>
            forall e :: e in es ==> KindCount(es, e.kind) <= KindCount(es, es[|es| - 1].kind)
  {
    var es := InBucket(events, start, bucket, keys[j]);
    DominantAmongEvents(es, es[|es| - 1].kind);
  }

  /** Two tool calls and then a command, all within the first bucket. */
  ghost predicate MostlyToolCalls(events: seq<Event>, bucket: int) {
    && |events| == 3 && events[0].kind == ToolCall && events[1].kind == ToolCall && events[2].kind == Command
    && forall e :: e in events ==> 0 <= e.ts < bucket
  }

  lemma KeyZero(e: Event, bucket: int)
    requires 0 <= e.ts < bucket
    ensures Key(e, 0, bucket) == 0
  {
  }

  lemma InFirstBucket(events: seq<Event>, bucket: int, k: int)
    requires (forall e :: e in events ==> 0 <= e.ts < bucket) && bucket > 0
    requires InBucket(events, 0, bucket, k) != []
    ensures k == 0
  {
    var e := InBucket(events, 0, bucket, k)[0];
    InBucketMembers(events, 0, bucket, k, e);
    KeyZero(e, bucket);
  }

  lemma OneBucket(events: seq<Event>, bucket: int, keys: seq<int>)
    requires events != [] && bucket > 0 && Increasing(keys) && KeysOf(keys, events, 0, bucket)
    requires forall e :: e in events ==> 0 <= e.ts < bucket
    ensures keys == [0]
  {
    assert events[0] in events;
    KeyZero(events[0], bucket);
    assert 0 in keys;
    InFirstBucket(events, bucket, keys[0]);
    InFirstBucket(events, bucket, keys[|keys| - 1]);
  }

  lemma {:induction false} WholeBucket(events: seq<Event>, bucket: int)
    requires bucket > 0 && forall e :: e in events ==> 0 <= e.ts < bucket
    ensures InBucket(events, 0, bucket, 0) == events
  {
    if events != [] {
      var n := |events| - 1;
      TakeSnoc(events, n);
      KeyZero(events[n], bucket);
      WholeBucket(events[..n], bucket);
    }
  }

  lemma CountThree(es: seq<Event>, kind: Kind)
    requires |es| == 3
    ensures KindCount(es, kind) == (if es[0].kind == kind then 1 else 0) + (if es[1].kind == kind then 1 else 0)
                                   + (if es[2].kind == kind then 1 else 0)
  {
    assert es[..2][..1] == es[..1] && es[..1][..0] == [];
    assert KindCount(es[..2], kind) == KindCount(es[..1], kind) + if es[1].kind == kind then 1 else 0;
  }

  /** A timeline whose only moment does not carry the dominant kind of its bucket. */
  lemma LastKindNotDominant(events: seq<Event>, bucket: int, keys: seq<int>, moments: seq<Moment>)
    requires bucket > 0 && MostlyToolCalls(events, bucket) && Describes(events, 0, bucket, keys, moments)
    ensures keys == [0] && |moments| == 1 && InBucket(events, 0, bucket, 0) == events
    ensures moments[0].kind == Command && !Dominant(events, Command) && Dominant(events, ToolCall)
  {
    OneBucket(events, bucket, keys);
    WholeBucket(events, bucket);
    MostlyDominant(events, bucket);
  }

  lemma MostlyDominant(events: seq<Event>, bucket: int)
    requires MostlyToolCalls(events, bucket)
    ensures !Dominant(events, Command) && Dominant(events, ToolCall)
  {
    CountThree(events, ToolCall);
    CountThree(events, Command);
    DominantAmongEvents(events, ToolCall);
  }

  /** Such a log, with the default bucket of five seconds. */
  lemma MostlyToolCallsExample() returns (events: seq<Event>, moments: seq<Moment>)
    ensures MostlyToolCalls(events, BucketLength(5)) && Describes(events, 0, BucketLength(5), [0], moments)
  {
    var bucket := BucketLength(5);
    var call, run := Event(0, ToolCall, "", map[], ""), Event(1, Command, "", map[], "");
    events := [call, call, run];
    WholeBucket(events, bucket);
    moments := [MomentOf(events, 0, bucket, 0)];
  }

  // ---- At ----

  datatype Snapshot = Snapshot(
    t: int, latestShot: Option<map<string, string>>, lastToolCall: string,
    filesTouched: seq<string>, commandsRun: seq<string>, consoleErrors: seq<string>)

  /** The last event of a kind. */
  function Last(es: seq<Event>, kind: Kind): Option<Event> {
    if es == [] then None
    else if es[|es| - 1].kind == kind then Some(es[|es| - 1])
    else Last(es[..|es| - 1], kind)
  }

  /** Summaries of the events of a kind from time `from` on, in log order. */
  function Summaries(es: seq<Event>, kind: Kind, from: int): seq<string> {
    if es == [] then []
    else
      var e := es[|es| - 1];
      Summaries(es[..|es| - 1], kind, from) + if e.kind == kind && e.ts >= from then [e.summary] else []
  }

  /** The declarative query over a list of events. */
  function Query(es: seq<Event>, t: int, from: int): Snapshot {
    Snapshot(t,
             if Last(es, Screenshot).Some? then Some(Last(es, Screenshot).value.refs) else None,
             if Last(es, ToolCall).Some? then Last(es, ToolCall).value.summary else "",
             Summaries(es, FileEdit, from), Summaries(es, Command, from), Summaries(es, Console, from))
  }

  /** The events before the first one later than `t`. */
  function Until(events: seq<Event>, t: int): seq<Event> {
    if events == [] || events[0].ts > t then [] else [events[0]] + Until(events[1..], t)
  }

  /** All events not later than `t`. */
  function UpTo(events: seq<Event>, t: int): seq<Event> {
    if events == [] then []
    else (if events[0].ts > t then [] else [events[0]]) + UpTo(events[1..], t)
  }

  function WindowStart(t: int, windowSeconds: int): int {
    t - (if windowSeconds <= 0 then 30 else windowSeconds) * SECOND
  }

  lemma QuerySnoc(es: seq<Event>, e: Event, t: int, from: int)
    ensures Query(es + [e], t, from) ==
            var q := Query(es, t, from);
            match e.kind
            case Screenshot => q.(latestShot := Some(e.refs))
            case ToolCall => q.(lastToolCall := e.summary)
            case FileEdit => if e.ts < from then q else q.(filesTouched := q.filesTouched + [e.summary])
            case Command => if e.ts < from then q else q.(commandsRun := q.commandsRun + [e.summary])
            case Console => if e.ts < from then q else q.(consoleErrors := q.consoleErrors + [e.summary])
            case OtherKind(_) => q
  {
    assert (es + [e])[..|es|] == es;
  }

  lemma {:induction false} UntilIsTake(events: seq<Event>, t: int, i: nat)
    requires i <= |events| && (forall k :: 0 <= k < i ==> events[k].ts <= t) && (i < |events| ==> events[i].ts > t)
    ensures Until(events, t) == events[..i]
  {
    if i > 0 {
      UntilIsTake(events[1..], t, i - 1);
      assert events[..i] == [events[0]] + events[1..][..i - 1];
    }
  }

  /** The events an early exit at `t` leaves are those before the first one later than `t`. */
  lemma {:induction false} UntilExactly(events: seq<Event>, t: int) returns (n: nat)
    ensures n <= |events| && Until(events, t) == events[..n]
    ensures (forall k :: 0 <= k < n ==> events[k].ts <= t) && (n < |events| ==> events[n].ts > t)
  {
    if events == [] || events[0].ts > t {
      n := 0;
    } else {
      var m := UntilExactly(events[1..], t);
      n := m + 1;
      assert events[..n] == [events[0]] + events[1..][..m];
    }
  }

  /** Event i is the last of its kind. */
  ghost predicate IsLast(es: seq<Event>, i: nat, kind: Kind) {
    i < |es| && es[i].kind == kind && forall j :: i < j < |es| ==> es[j].kind != kind
  }

  ghost predicate Occurs(es: seq<Event>, kind: Kind) {
    exists i :: 0 <= i < |es| && es[i].kind == kind
  }

  /** The positions of the events of a kind from time `from` on. */
  ghost predicate Positions(idx: seq<nat>, es: seq<Event>, kind: Kind, from: int) {
    && Increasing(idx)
    && (forall k :: 0 <= k < |idx| ==> idx[k] < |es|)
    && (forall i :: 0 <= i < |es| ==> (i in idx <==> es[i].kind == kind && es[i].ts >= from))
  }

  /** `summaries` are those of exactly these events, in log order. */
  ghost predicate ListsKind(summaries: seq<string>, es: seq<Event>, kind: Kind, from: int) {
    exists idx: seq<nat> :: ListsAt(summaries, es, kind, from, idx)
  }

  ghost predicate ListsAt(summaries: seq<string>, es: seq<Event>, kind: Kind, from: int, idx: seq<nat>) {
    Positions(idx, es, kind, from) && |summaries| == |idx| &&
    forall k :: 0 <= k < |idx| ==> summaries[k] == es[idx[k]].summary
  }

  /** The snapshot, read off the events it is taken from. */
  ghost predicate Meets(snap: Snapshot, es: seq<Event>, t: int, from: int) {
    && snap.t == t
    && (if Occurs(es, Screenshot) then exists i: nat :: IsLast(es, i, Screenshot) && snap.latestShot == Some(es[i].refs)
        else snap.latestShot == None)
    && (if Occurs(es, ToolCall) then exists i: nat :: IsLast(es, i, ToolCall) && snap.lastToolCall == es[i].summary
        else snap.lastToolCall == "")
    && ListsKind(snap.filesTouched, es, FileEdit, from)
    && ListsKind(snap.commandsRun, es, Command, from)
    && ListsKind(snap.consoleErrors, es, Console, from)
  }

  lemma {:induction false} LastFound(es: seq<Event>, kind: Kind) returns (i: nat)
    requires Occurs(es, kind)
    ensures IsLast(es, i, kind) && Last(es, kind) == Some(es[i])
  {
    var n := |es| - 1;
    if es[n].kind == kind {
      i := n;
    } else {
      var front := es[..n];
      var k :| 0 <= k < |es| && es[k].kind == kind;
      assert front[k].kind == kind;
      i := LastFound(front, kind);
      assert forall j :: i < j < n ==> es[j] == front[j];
    }
  }

  lemma {:induction false} LastMissing(es: seq<Event>, kind: Kind)
    requires !Occurs(es, kind)
    ensures Last(es, kind) == None
  {
    if es != [] {
      var front := es[..|es| - 1];
      assert forall k :: 0 <= k < |front| ==> front[k] == es[k];
      LastMissing(front, kind);
    }
  }

  lemma {:induction false} SummariesList(es: seq<Event>, kind: Kind, from: int) returns (idx: seq<nat>)
    ensures ListsAt(Summaries(es, kind, from), es, kind, from, idx)
  {
    if es == [] {
      idx := [];
    } else {
      var n := |es| - 1;
      var before := SummariesList(es[..n], kind, from);
      idx := before + if es[n].kind == kind && es[n].ts >= from then [n] else [];
      PositionsSnoc(before, es, kind, from, idx);
    }
  }

  lemma PositionsSnoc(before: seq<nat>, es: seq<Event>, kind: Kind, from: int, idx: seq<nat>)
    requires es != [] && Positions(before, es[..|es| - 1], kind, from)
    requires var n := |es| - 1;
             idx == before + if es[n].kind == kind && es[n].ts >= from then [n] else []
    ensures Positions(idx, es, kind, from)
  {
    var n := |es| - 1;
    assert forall i :: i in idx <==> i in before || (i == n && es[n].kind == kind && es[n].ts >= from);
    assert forall k :: 0 <= k < |before| ==> before[k] in before;
    assert n !in before;
  }

  lemma QueryMeets(es: seq<Event>, t: int, from: int)
    ensures Meets(Query(es, t, from), es, t, from)
  {
    if Occurs(es, Screenshot) {
      var shot := LastFound(es, Screenshot);
    } else {
      LastMissing(es, Screenshot);
    }
    if Occurs(es, ToolCall) {
      var call := LastFound(es, ToolCall);
    } else {
      LastMissing(es, ToolCall);
    }
    var files := SummariesList(es, FileEdit, from);
    var commands := SummariesList(es, Command, from);
    var errors := SummariesList(es, Console, from);
  }

  method At(events: seq<Event>, t: int, windowSeconds: int) returns (snap: Snapshot)
    ensures snap == Query(Until(events, t), t, WindowStart(t, windowSeconds))
  {
    var window := if windowSeconds <= 0 then 30 else windowSeconds;
    var windowStart := t - window * SECOND;
    snap := Snapshot(t, None, "", [], [], []);
    var i := 0;
    while i < |events|
      invariant i <= |events| && forall k :: 0 <= k < i ==> events[k].ts <= t
      invariant snap == Query(events[..i], t, windowStart)
    {
      var e := events[i];
      if e.ts > t {
        break;
      }
      QuerySnoc(events[..i], e, t, windowStart);
      TakeSnoc(events, i);
      i := i + 1;
      match e.kind {
        case Screenshot => snap := snap.(latestShot := Some(e.refs));
        case ToolCall => snap := snap.(lastToolCall := e.summary);
        case _ =>
      }
      if e.ts < windowStart {
        continue;
      }
      match e.kind {
        case FileEdit => snap := snap.(filesTouched := snap.filesTouched + [e.summary]);
        case Command => snap := snap.(commandsRun := snap.commandsRun + [e.summary]);
        case Console => snap := snap.(consoleErrors := snap.consoleErrors + [e.summary]);
        case _ =>
      }
    }
    UntilIsTake(events, t, i);
  }

  /** What At returns, said without the functions above: the refs of the last screenshot and the
      summary of the last tool call among the events before the first one later than `t`, and the
      summaries of the edits, commands and console lines among them no more than so many seconds
      before `t`, 30 unless asked otherwise, in log order. */
  lemma SnapshotMeans(events: seq<Event>, t: int, windowSeconds: int, snap: Snapshot) returns (n: nat)
    requires snap == Query(Until(events, t), t, WindowStart(t, windowSeconds))
    ensures n <= |events| && (forall k :: 0 <= k < n ==> events[k].ts <= t) && (n < |events| ==> events[n].ts > t)
    ensures Meets(snap, events[..n], t, t - (if windowSeconds <= 0 then 30 else windowSeconds) * 1000000000)
  {
    n := UntilExactly(events, t);
    QueryMeets(events[..n], t, WindowStart(t, windowSeconds));
  }

  lemma {:induction false} UpToLater(events: seq<Event>, t: int)
    requires forall k :: 0 <= k < |events| ==> events[k].ts > t
    ensures UpTo(events, t) == []
  {
    if events != [] {
      UpToLater(events[1..], t);
    }
  }

  lemma {:induction false} SortedMeetsQuery(events: seq<Event>, t: int)
    requires Sorted(events)
    ensures Until(events, t) == UpTo(events, t)
  {
    if events != [] {
      if events[0].ts > t {
        UpToLater(events, t);
      } else {
        SortedMeetsQuery(events[1..], t);
      }
    }
  }

  /** The events up to `t` that the early exit does not see. */
  function Missed(events: seq<Event>, t: int): seq<Event> {
    if events == [] then []
    else if events[0].ts > t then UpTo(events, t)
    else Missed(events[1..], t)
  }

  lemma {:induction false} UpToSplits(events: seq<Event>, t: int)
    ensures UpTo(events, t) == Until(events, t) + Missed(events, t)
  {
    if events != [] && events[0].ts <= t {
      UpToSplits(events[1..], t);
      Assoc([events[0]], Until(events[1..], t), Missed(events[1..], t));
    }
  }

  lemma {:induction false} LastConcat(a: seq<Event>, b: seq<Event>, kind: Kind)
    ensures Last(a + b, kind) == if Last(b, kind).Some? then Last(b, kind) else Last(a, kind)
  {
    if b == [] {
      assert a + b == a;
    } else {
      assert (a + b)[..|a + b| - 1] == a + b[..|b| - 1];
      LastConcat(a, b[..|b| - 1], kind);
    }
  }

  lemma {:induction false} SummariesConcat(a: seq<Event>, b: seq<Event>, kind: Kind, from: int)
    ensures Summaries(a + b, kind, from) == Summaries(a, kind, from) + Summaries(b, kind, from)
  {
    if b == [] {
      assert a + b == a;
    } else {
      var n := |b| - 1;
      assert (a + b)[..|a + b| - 1] == a + b[..n];
      SummariesConcat(a, b[..n], kind, from);
    }
  }

  /** An event of `kind` in the window. */
  ghost predicate Shows(es: seq<Event>, kind: Kind, from: int) {
    exists i :: 0 <= i < |es| && es[i].kind == kind && es[i].ts >= from
  }

  lemma {:induction false} SummariesShow(es: seq<Event>, kind: Kind, from: int)
    ensures Summaries(es, kind, from) != [] <==> Shows(es, kind, from)
  {
    if es != [] {
      var n := |es| - 1;
      SummariesShow(es[..n], kind, from);
      if Shows(es[..n], kind, from) {
        var i :| 0 <= i < n && es[..n][i].kind == kind && es[..n][i].ts >= from;
        assert es[i].kind == kind;
      }
      if Shows(es, kind, from) && !(es[n].kind == kind && es[n].ts >= from) {
        var i :| 0 <= i < |es| && es[i].kind == kind && es[i].ts >= from;
        assert es[..n][i].kind == kind;
      }
    }
  }

  lemma SummariesGrow(seen: seq<Event>, missed: seq<Event>, kind: Kind, from: int)
    ensures Summaries(seen + missed, kind, from) == Summaries(seen, kind, from) <==> !Shows(missed, kind, from)
  {
    SummariesConcat(seen, missed, kind, from);
    SummariesShow(missed, kind, from);
  }

  /** The missed events would not change the snapshot: none of them is listed, and the last
      screenshot and tool call among them, if any, say what the last seen ones say. */
  ghost predicate Harmless(seen: seq<Event>, missed: seq<Event>, from: int) {
    && !Shows(missed, FileEdit, from) && !Shows(missed, Command, from) && !Shows(missed, Console, from)
    && (Last(missed, Screenshot).Some? ==>
          Last(seen, Screenshot).Some? && Last(missed, Screenshot).value.refs == Last(seen, Screenshot).value.refs)
    && (Last(missed, ToolCall).Some? ==>
          Last(missed, ToolCall).value.summary
          == if Last(seen, ToolCall).Some? then Last(seen, ToolCall).value.summary else "")
  }

  /** The snapshot is that of all events up to `t`, whatever the order of the log, exactly when the
      events behind the first later one are harmless. */
  lemma SnapshotExactIff(events: seq<Event>, t: int, from: int)
    ensures Query(Until(events, t), t, from) == Query(UpTo(events, t), t, from) <==>
            Harmless(Until(events, t), Missed(events, t), from)
  {
    var seen, missed := Until(events, t), Missed(events, t);
    UpToSplits(events, t);
    LastConcat(seen, missed, Screenshot);
    LastConcat(seen, missed, ToolCall);
    SummariesGrow(seen, missed, FileEdit, from);
    SummariesGrow(seen, missed, Command, from);
    SummariesGrow(seen, missed, Console, from);
  }

  lemma {:induction false} UpToMember(events: seq<Event>, t: int, j: nat)
    requires j < |events| && events[j].ts <= t
    ensures UpTo(events, t) != []
  {
    if j > 0 {
      UpToMember(events[1..], t, j - 1);
    }
  }

  lemma {:induction false} EarlyExitMisses(events: seq<Event>, i: nat, j: nat)
    requires i < j < |events| && events[i].ts > events[j].ts
    ensures Until(events, events[j].ts) != UpTo(events, events[j].ts)
  {
    var t := events[j].ts;
    if events[0].ts > t {
      UpToMember(events, t, j);
    } else {
      assert i > 0;
      EarlyExitMisses(events[1..], i - 1, j - 1);
      assert Until(events, t)[1..] == Until(events[1..], t);
      assert UpTo(events, t)[1..] == UpTo(events[1..], t);
    }
  }

  /** The early exit sees, for every time asked, exactly the events up to that time if and only if
      the log is in time order. */
  lemma EarlyExitExactIff(events: seq<Event>)
    ensures (forall t :: Until(events, t) == UpTo(events, t)) <==> Sorted(events)
  {
    if Sorted(events) {
      forall t
        ensures Until(events, t) == UpTo(events, t)
      {
        SortedMeetsQuery(events, t);
      }
    } else {
      var i, j :| 0 <= i < j < |events| && events[i].ts > events[j].ts;
      EarlyExitMisses(events, i, j);
    }
  }
}
