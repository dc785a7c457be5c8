/** The event shape shared by the web client (web/src/domain/event.ts) and the
    backend (backend/src/domain/event.rs), and the two orderings the system
    applies to events: the strict `timestamp > since` filter and the ascending
    timestamp sort. */
module Events {
  import opened Seqs

  /** An event's payload: a JSON object with string fields, `{title}` for a
      "created" event and `{}` for a "checked" event. */
  type Payload = map<string, string>

  /** An immutable fact about a change to one entity. `timestamp` is in
      milliseconds since the epoch. */
  datatype Event = Event(
    id: string,
    entityId: string,
    entityType: string,
    eventType: string,
    payload: Payload,
    timestamp: int,
    deviceId: string)

  /** An event without its timestamp: what the local store's `addEvent`
      accepts before it stamps the event itself. */
  datatype NewEvent = NewEvent(
    id: string,
    entityId: string,
    entityType: string,
    eventType: string,
    payload: Payload,
    deviceId: string)

  /** The part of an event that survives `{...event, timestamp}`: every field
      but the timestamp. */
  function Unstamp(e: Event): NewEvent {
    NewEvent(e.id, e.entityId, e.entityType, e.eventType, e.payload, e.deviceId)
  }

  /** `{...event, timestamp: now}`: the event completed with a clock reading. */
  function Stamp(e: NewEvent, now: int): (r: Event)
    ensures Unstamp(r) == e && r.timestamp == now
  {
    Event(e.id, e.entityId, e.entityType, e.eventType, e.payload, now, e.deviceId)
  }

  /** Re-stamping a full event keeps everything but its timestamp. */
  lemma RestampKeepsAllButTimestamp(e: Event, now: int)
    ensures Stamp(Unstamp(e), now) == e.(timestamp := now)
    ensures Stamp(Unstamp(e), e.timestamp) == e
  {
  }

  /** The ids of a sequence of events. */
  function Ids(s: seq<Event>): (r: set<string>)
    ensures forall i :: 0 <= i < |s| ==> s[i].id in r
    ensures forall id :: id in r ==> exists i :: 0 <= i < |s| && s[i].id == id
  {
    set i | 0 <= i < |s| :: s[i].id
  }

  /** No two events of `s` share an id. */
  predicate DistinctIds(s: seq<Event>) {
    forall i, j :: 0 <= i < j < |s| ==> s[i].id != s[j].id
  }

  /** Whether an event is strictly newer than `since`. */
  function NewerThan(since: int): Event -> bool {
    (e: Event) => e.timestamp > since
  }

  /** The events of `s` with `timestamp > since`, in the order of `s`: the
      filter of the local store's `getEventsSince` and the `WHERE` clause of
      the backend's `get_events_since`. */
  function Since(s: seq<Event>, since: int): (r: seq<Event>)
    ensures forall i :: 0 <= i < |r| ==> r[i] in s && r[i].timestamp > since
    ensures forall i :: 0 <= i < |s| && s[i].timestamp > since ==> s[i] in r
    ensures multiset(r) <= multiset(s)
  {
    Filter(NewerThan(since), s)
  }

  /** An event stamped exactly `since` is excluded. */
  lemma {:induction false} SinceExcludesBoundary(s: seq<Event>, since: int)
    ensures forall i :: 0 <= i < |Since(s, since)| ==> Since(s, since)[i].timestamp != since
  {
  }

  lemma DistinctIdsTail(s: seq<Event>)
    requires s != [] && DistinctIds(s)
    ensures DistinctIds(s[1..])
  {
    forall p, q | 0 <= p < q < |s[1..]| ensures s[1..][p].id != s[1..][q].id {
      assert s[1..][p] == s[p + 1] && s[1..][q] == s[q + 1];
    }
  }

  lemma DistinctIdsCons(x: Event, rest: seq<Event>)
    requires DistinctIds(rest)
    requires forall k :: 0 <= k < |rest| ==> rest[k].id != x.id
    ensures DistinctIds([x] + rest)
  {
    forall p, q | 0 <= p < q < |[x] + rest| ensures ([x] + rest)[p].id != ([x] + rest)[q].id {
      assert ([x] + rest)[q] == rest[q - 1];
      if p > 0 {
        assert ([x] + rest)[p] == rest[p - 1];
      }
    }
  }

  /** Filtering keeps ids distinct. */
  lemma {:induction false} SinceKeepsDistinctIds(s: seq<Event>, since: int)
    requires DistinctIds(s)
    ensures DistinctIds(Since(s, since))
  {
    if s != [] {
      DistinctIdsTail(s);
      SinceKeepsDistinctIds(s[1..], since);
      var rest := Since(s[1..], since);
      assert Since(s, since) == (if s[0].timestamp > since then [s[0]] else []) + rest;
      if s[0].timestamp > since {
        forall k | 0 <= k < |rest| ensures rest[k].id != s[0].id {
          var m :| 0 <= m < |s[1..]| && s[1..][m] == rest[k];
          assert s[m + 1] == rest[k];
        }
        DistinctIdsCons(s[0], rest);
      } else {
        assert Since(s, since) == rest;
      }
    }
  }

  /** A larger `since` selects a sub-filter of a smaller one, and so never
      yields more events. */
  lemma SinceAntitone(s: seq<Event>, t1: int, t2: int)
    requires t1 <= t2
    ensures Since(Since(s, t1), t2) == Since(s, t2)
    ensures |Since(s, t2)| <= |Since(s, t1)|
  {
    FilterSubsumed(NewerThan(t1), NewerThan(t2), s);
    FilterLengthMonotone(NewerThan(t1), NewerThan(t2), s);
  }

  /** Ascending (non-decreasing) timestamp order. */
  predicate SortedByTimestamp(s: seq<Event>) {
    forall i, j :: 0 <= i < j < |s| ==> s[i].timestamp <= s[j].timestamp
  }

  lemma SortedTail(s: seq<Event>)
    requires s != [] && SortedByTimestamp(s)
    ensures SortedByTimestamp(s[1..])
  {
    forall p, q | 0 <= p < q < |s[1..]|
      ensures s[1..][p].timestamp <= s[1..][q].timestamp
    {
      assert s[1..][p] == s[p + 1] && s[1..][q] == s[q + 1];
    }
  }

  lemma PrependSorted(x: Event, s: seq<Event>)
    requires SortedByTimestamp(s)
    requires s == [] || x.timestamp <= s[0].timestamp
    ensures SortedByTimestamp([x] + s)
  {
    forall p, q | 0 <= p < q < |[x] + s|
      ensures ([x] + s)[p].timestamp <= ([x] + s)[q].timestamp
    {
      if p == 0 {
        assert x.timestamp <= s[0].timestamp <= s[q - 1].timestamp;
      } else {
        assert ([x] + s)[p] == s[p - 1] && ([x] + s)[q] == s[q - 1];
      }
    }
  }

  /** Inserts `e` before the first event of the sorted `s` that is not older
      than it. */
  function InsertByTimestamp(e: Event, s: seq<Event>): (r: seq<Event>)
    requires SortedByTimestamp(s)
    ensures SortedByTimestamp(r)
    ensures multiset(r) == multiset(s) + multiset{e}
    ensures |r| == |s| + 1
    ensures r[0] == if s == [] || e.timestamp <= s[0].timestamp then e else s[0]
    decreases |s|
  {
    if s == [] || e.timestamp <= s[0].timestamp then
      PrependSorted(e, s);
      [e] + s
    else
      SortedTail(s);
      var tail := InsertByTimestamp(e, s[1..]);
      KeepHead(e, s, tail);
      [s[0]] + tail
  }

  /** The step of `InsertByTimestamp` that keeps the head of `s` in front of
      the insertion into the rest. */
  lemma KeepHead(e: Event, s: seq<Event>, tail: seq<Event>)
    requires s != [] && SortedByTimestamp(s) && s[0].timestamp < e.timestamp
    requires SortedByTimestamp(tail) && |tail| == |s|
    requires multiset(tail) == multiset(s[1..]) + multiset{e}
    requires tail[0] == if |s| == 1 || e.timestamp <= s[1].timestamp then e else s[1]
    ensures SortedByTimestamp([s[0]] + tail)
    ensures multiset([s[0]] + tail) == multiset(s) + multiset{e}
  {
    assert |s| > 1 ==> s[0].timestamp <= s[1].timestamp;
    PrependSorted(s[0], tail);
    assert s == [s[0]] + s[1..];
  }

  /** A stable sort by ascending timestamp: `ORDER BY timestamp ASC`, and the
      order the web projection was evidently meant to fold in. */
  function SortByTimestamp(s: seq<Event>): (r: seq<Event>)
    ensures SortedByTimestamp(r)
    ensures multiset(r) == multiset(s)
    ensures |r| == |s|
  {
    if s == [] then []
    else
      assert s == [s[0]] + s[1..];
      InsertByTimestamp(s[0], SortByTimestamp(s[1..]))
  }

  /** No two events of `s` carry the same timestamp. */
  predicate DistinctTimestamps(s: seq<Event>) {
    forall i, j :: 0 <= i < j < |s| ==> s[i].timestamp != s[j].timestamp
  }

  lemma DistinctTimestampsAt(s: seq<Event>, i: int, j: int)
    requires DistinctTimestamps(s)
    requires 0 <= i < |s| && 0 <= j < |s| && s[i].timestamp == s[j].timestamp
    ensures i == j
  {
  }

  lemma MultisetTail(s: seq<Event>)
    requires s != []
    ensures multiset(s[1..]) == multiset(s) - multiset{s[0]}
  {
    assert s == [s[0]] + s[1..];
  }

  lemma TailKeepsOrder(s: seq<Event>)
    requires s != [] && SortedByTimestamp(s) && DistinctTimestamps(s)
    ensures SortedByTimestamp(s[1..]) && DistinctTimestamps(s[1..])
  {
    forall p, q | 0 <= p < q < |s[1..]|
      ensures s[1..][p].timestamp < s[1..][q].timestamp
    {
      assert s[1..][p] == s[p + 1] && s[1..][q] == s[q + 1];
    }
  }

  /** Sorting keeps timestamps distinct. */
  lemma {:induction false} InsertKeepsDistinctTimestamps(e: Event, s: seq<Event>)
    requires SortedByTimestamp(s) && DistinctTimestamps(s)
    requires forall k :: 0 <= k < |s| ==> s[k].timestamp != e.timestamp
    ensures DistinctTimestamps(InsertByTimestamp(e, s))
  {
    if s != [] && e.timestamp > s[0].timestamp {
      TailKeepsOrder(s);
      InsertKeepsDistinctTimestamps(e, s[1..]);
      var tail := InsertByTimestamp(e, s[1..]);
      assert |s| > 1 ==> s[0].timestamp < s[1].timestamp;
      assert s[0].timestamp < tail[0].timestamp;
      forall p, q | 0 <= p < q < |[s[0]] + tail|
        ensures ([s[0]] + tail)[p].timestamp != ([s[0]] + tail)[q].timestamp
      {
        if p == 0 {
          assert tail[0].timestamp <= tail[q - 1].timestamp;
        } else {
          assert ([s[0]] + tail)[p] == tail[p - 1] && ([s[0]] + tail)[q] == tail[q - 1];
        }
      }
    }
  }

  lemma {:induction false} SortKeepsDistinctTimestamps(s: seq<Event>)
    requires DistinctTimestamps(s)
    ensures DistinctTimestamps(SortByTimestamp(s))
  {
    if s != [] {
      assert DistinctTimestamps(s[1..]) by {
        forall p, q | 0 <= p < q < |s[1..]| ensures s[1..][p].timestamp != s[1..][q].timestamp {
          assert s[1..][p] == s[p + 1] && s[1..][q] == s[q + 1];
        }
      }
      SortKeepsDistinctTimestamps(s[1..]);
      var sorted := SortByTimestamp(s[1..]);
      forall k | 0 <= k < |sorted| ensures sorted[k].timestamp != s[0].timestamp {
        assert sorted[k] in multiset(s[1..]);
        var m :| 0 <= m < |s[1..]| && s[1..][m] == sorted[k];
        assert s[m + 1] == sorted[k];
      }
      InsertKeepsDistinctTimestamps(s[0], sorted);
    }
  }

  /** Anything in an answer to a watermark query is a stored row newer than the watermark. */
  lemma SinceMember(s: seq<Event>, since: int, x: Event)
    requires x in Since(s, since)
    ensures x in s && x.timestamp > since
  {
    var j :| 0 <= j < |Since(s, since)| && Since(s, since)[j] == x;
  }

  /** Two listings of the same events hold the same events. */
  lemma SameElements(a: seq<Event>, b: seq<Event>)
    requires multiset(a) == multiset(b)
    ensures forall x :: x in a <==> x in b
  {
    forall x ensures x in a <==> x in b {
      assert x in a <==> x in multiset(a);
      assert x in b <==> x in multiset(b);
    }
  }

  /** Two sorted arrangements of the same events are the same sequence once
      no two events share a timestamp: sorting makes the order of the input
      irrelevant. */
  lemma {:induction false} SortedArrangementUnique(a: seq<Event>, b: seq<Event>)
    requires SortedByTimestamp(a) && SortedByTimestamp(b)
    requires multiset(a) == multiset(b)
    requires DistinctTimestamps(a)
    ensures a == b
  {
    if a == [] {
      assert |b| == |multiset(b)| == 0;
    } else {
      assert |b| == |multiset(b)| == |multiset(a)| == |a|;
      SameFirst(a, b);
      MultisetTail(a);
      MultisetTail(b);
      TailKeepsOrder(a);
      SortedArrangementUnique(a[1..], b[1..]);
      assert a == [a[0]] + a[1..] && b == [b[0]] + b[1..];
    }
  }

  lemma SameFirst(a: seq<Event>, b: seq<Event>)
    requires a != [] && b != []
    requires SortedByTimestamp(a) && SortedByTimestamp(b)
    requires multiset(a) == multiset(b)
    requires DistinctTimestamps(a)
    ensures a[0] == b[0]
  {
    assert a[0] in multiset(b);
    var j :| 0 <= j < |b| && b[j] == a[0];
    assert b[0] in multiset(a);
    var i :| 0 <= i < |a| && a[i] == b[0];
    assert b[0].timestamp <= b[j].timestamp;
    assert a[0].timestamp <= a[i].timestamp;
    DistinctTimestampsAt(a, 0, i);
  }
}
