/** The local event log of the web client (web/src/data/eventStore.ts): the
    IndexedDB object store "events", keyed by each event's `id`, and the
    "meta" object store holding the `lastSync` watermark. */
module EventStore {
  import opened Events

  /** The key of the watermark's record in the "meta" object store. */
  const LastSyncKey: string := "lastSync"

  /** The object store's key path is `id`: every event is stored under its
      own id. */
  ghost predicate KeyedById(m: map<string, Event>) {
    forall id :: id in m ==> m[id].id == id
  }

  /** `r` lists every stored event exactly once, in some order. */
  ghost predicate Enumerates(r: seq<Event>, m: map<string, Event>) {
    && DistinctIds(r)
    && (forall i :: 0 <= i < |r| ==> r[i].id in m && m[r[i].id] == r[i])
    && (forall id :: id in m ==> exists i :: 0 <= i < |r| && r[i].id == id)
  }

  /** The watermark as `getLastSync` reads it: the saved value, or 0 when
      none was ever saved. */
  function LastSyncOf(meta: map<string, int>): int {
    if LastSyncKey in meta then meta[LastSyncKey] else 0
  }

  class LocalEventStore {
    /** The "events" object store, keyed by event id. */
    var events: map<string, Event>
    /** The "meta" object store, keyed by record key. */
    var meta: map<string, int>

    ghost predicate Valid()
      reads this
    {
      KeyedById(events)
    }

    /** A freshly created database holds no events and no watermark. */
    constructor ()
      ensures Valid() && events == map[] && meta == map[]
    {
      events := map[];
      meta := map[];
    }

    /** Stamps the event with the clock reading `now` and puts it under its
        id: an existing event with that id is overwritten, without error. */
    method AddEvent(e: NewEvent, now: int)
      requires Valid()
      modifies this
      ensures Valid()
      ensures events == old(events)[e.id := Stamp(e, now)]
      ensures e.id in old(events) ==> |events| == |old(events)|
      ensures e.id !in old(events) ==> |events| == |old(events)| + 1
      ensures meta == old(meta)
    {
      var fullEvent := Stamp(e, now);
      events := events[e.id := fullEvent];
    }

    /** Every stored event, each once. The order is not specified. */
    method GetAllEvents() returns (all: seq<Event>)
      requires Valid()
      ensures Enumerates(all, events)
    {
      all := [];
      var rest := events.Keys;
      while rest != {}
        invariant rest <= events.Keys
        invariant DistinctIds(all)
        invariant forall i :: 0 <= i < |all| ==> all[i].id in events && events[all[i].id] == all[i]
        invariant forall i :: 0 <= i < |all| ==> all[i].id !in rest
        invariant forall id :: id in events && id !in rest ==> exists i :: 0 <= i < |all| && all[i].id == id
        decreases rest
      {
        var id :| id in rest;
        ghost var before := all;
        all := all + [events[id]];
        assert all[|before|].id == id;
        assert forall i :: 0 <= i < |before| ==> all[i] == before[i];
        rest := rest - {id};
      }
    }

    /** The stored events strictly newer than `timestamp`, each once. */
    method GetEventsSince(timestamp: int) returns (r: seq<Event>)
      requires Valid()
      ensures DistinctIds(r)
      ensures forall i :: 0 <= i < |r| ==>
        r[i].id in events && events[r[i].id] == r[i] && r[i].timestamp > timestamp
      ensures forall id :: id in events && events[id].timestamp > timestamp ==>
        exists i :: 0 <= i < |r| && r[i].id == id
    {
      var all := GetAllEvents();
      r := Since(all, timestamp);
      SinceKeepsDistinctIds(all, timestamp);
      forall id | id in events && events[id].timestamp > timestamp
        ensures exists i :: 0 <= i < |r| && r[i].id == id
      {
        var k :| 0 <= k < |all| && all[k].id == id;
        assert all[k] in r;
      }
    }

    /** Writes the watermark; the events are untouched. */
    method SaveLastSync(timestamp: int)
      modifies this
      ensures meta == old(meta)[LastSyncKey := timestamp]
      ensures events == old(events)
    {
      meta := meta[LastSyncKey := timestamp];
    }

    /** Reads the watermark, 0 when none was ever saved. */
    method GetLastSync() returns (v: int)
      ensures LastSyncKey !in meta ==> v == 0
      ensures LastSyncKey in meta ==> v == meta[LastSyncKey]
      ensures v == LastSyncOf(meta)
    {
      v := if LastSyncKey in meta then meta[LastSyncKey] else 0;
    }
  }

  /** A watermark read back after saves is the last value saved, and the
      events are the ones stored before. */
  method SaveThenRead(store: LocalEventStore, first: int, second: int)
    returns (read: int)
    requires store.Valid()
    modifies store
    ensures read == second
    ensures store.events == old(store.events)
  {
    store.SaveLastSync(first);
    store.SaveLastSync(second);
    read := store.GetLastSync();
  }

  /** Putting an event twice under the same id stores one event, the one put
      last. */
  method AddTwice(store: LocalEventStore, e: NewEvent, f: NewEvent, t1: int, t2: int)
    requires store.Valid()
    requires e.id == f.id
    modifies store
    ensures store.Valid()
    ensures store.events == old(store.events)[e.id := Stamp(f, t2)]
    ensures store.meta == old(store.meta)
  {
    store.AddEvent(e, t1);
    store.AddEvent(f, t2);
  }
}
