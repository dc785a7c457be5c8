/** The backend's events table (backend/src/application/sync.rs): rows are
    only ever inserted, the `id` column is the primary key, and reads return
    the rows newer than a watermark in ascending timestamp order. */
module BackendEvents {
  import opened Events

  /** The `events` table. `rows` holds the rows in insertion order; SQL
      gives that order no meaning, and every read sorts. */
  class EventTable {
    var rows: seq<Event>

    /** The primary key: no two rows share an id. */
    predicate Valid()
      reads this
    {
      DistinctIds(rows)
    }

    constructor ()
      ensures Valid() && rows == []
    {
      rows := [];
    }

    /** `insert_event`: a plain INSERT. A row whose id is already present
        violates the primary key and the statement fails (and the handler
        panics on the `unwrap`); otherwise exactly one row is added with
        the event's seven fields. */
    method InsertEvent(e: Event) returns (ok: bool)
      requires Valid()
      modifies this
      ensures Valid()
      ensures ok <==> e.id !in Ids(old(rows))
      ensures rows == if ok then old(rows) + [e] else old(rows)
    {
      ok := e.id !in Ids(rows);
      if ok {
        forall k | 0 <= k < |rows| ensures rows[k].id != e.id {
          assert rows[k].id in Ids(rows);
        }
        ghost var before := rows;
        rows := rows + [e];
        assert forall k :: 0 <= k < |before| ==> rows[k] == before[k];
      }
    }

    /** `get_events_since`: `WHERE timestamp > since ORDER BY timestamp ASC`.
        The result holds exactly the rows newer than `since`, each as many
        times as it is stored, sorted by non-decreasing timestamp. The order
        among equal timestamps is whatever SQLite yields; the model fixes
        one (insertion order), and the contract does not depend on it. */
    method GetEventsSince(since: int) returns (r: seq<Event>)
      ensures SortedByTimestamp(r)
      ensures multiset(r) == multiset(Since(rows, since))
      ensures forall i :: 0 <= i < |r| ==> r[i] in rows && r[i].timestamp > since
      ensures forall i :: 0 <= i < |rows| && rows[i].timestamp > since ==> rows[i] in r
    {
      var newer := Since(rows, since);
      r := SortByTimestamp(newer);
      SameElements(r, newer);
      forall i | 0 <= i < |r| ensures r[i] in rows && r[i].timestamp > since {
        SinceMember(rows, since, r[i]);
      }
    }
  }

  /** An inserted event is read back, unchanged, by every query whose
      watermark is below its timestamp, whatever else is in the table. */
  lemma InsertedIsReturned(rows: seq<Event>, e: Event, since: int, r: seq<Event>)
    requires since < e.timestamp
    requires multiset(r) == multiset(Since(rows + [e], since))
    ensures e in r
  {
    assert (rows + [e])[|rows|] == e;
    assert e in Since(rows + [e], since);
    assert e in multiset(Since(rows + [e], since));
  }

  /** A later watermark never yields more rows. */
  lemma {:induction false} LaterWatermarkFewerRows(rows: seq<Event>, s1: int, s2: int, r1: seq<Event>, r2: seq<Event>)
    requires s1 <= s2
    requires multiset(r1) == multiset(Since(rows, s1))
    requires multiset(r2) == multiset(Since(rows, s2))
    ensures |r2| <= |r1|
  {
    SinceAntitone(rows, s1, s2);
    assert |r1| == |multiset(r1)| == |Since(rows, s1)|;
    assert |r2| == |multiset(r2)| == |Since(rows, s2)|;
  }

  /** When the selected rows carry distinct timestamps, the sorted answer is
      unique: any two sorted listings of them are the same sequence. */
  lemma AnswerDeterminedByTimestamps(rows: seq<Event>, since: int, r1: seq<Event>, r2: seq<Event>)
    requires DistinctTimestamps(Since(rows, since))
    requires SortedByTimestamp(r1) && multiset(r1) == multiset(Since(rows, since))
    requires SortedByTimestamp(r2) && multiset(r2) == multiset(Since(rows, since))
    ensures r1 == r2
  {
    var s := Since(rows, since);
    SortKeepsDistinctTimestamps(s);
    SortedArrangementUnique(SortByTimestamp(s), r1);
    SortedArrangementUnique(SortByTimestamp(s), r2);
  }
}
