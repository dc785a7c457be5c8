/** One synchronisation cycle of the web client (web/src/data/syncEngine.ts):
    push every local event, pull the remote events newer than the watermark,
    put each pulled event into the local store, and advance the watermark to
    the newest pulled timestamp. */
module SyncEngine {
  import opened Options
  import opened Events
  import opened EventStore

  /** The remote peer as the client sees it. `delivered` lists the events it
      received, in order. Whether a push gets through and what a pull returns
      are decided by the network and the peer; they are given as the oracles
      `accepts` and `reply`, which see what was delivered so far. `None`
      from `reply`, like `false` from `accepts`, is a request that throws. */
  class Gateway {
    var delivered: seq<Event>
    const accepts: (seq<Event>, Event) -> bool
    const reply: (seq<Event>, int) -> Option<seq<Event>>

    constructor (accepts: (seq<Event>, Event) -> bool, reply: (seq<Event>, int) -> Option<seq<Event>>)
      ensures this.accepts == accepts && this.reply == reply && delivered == []
    {
      this.accepts := accepts;
      this.reply := reply;
      delivered := [];
    }

    /** `pushEvent`: POST one event. The response status is ignored; only a
        request that throws counts as a failure. */
    method PushEvent(e: Event) returns (ok: bool)
      modifies this
      ensures ok == accepts(old(delivered), e)
      ensures delivered == if ok then old(delivered) + [e] else old(delivered)
    {
      ok := accepts(delivered, e);
      if ok {
        delivered := delivered + [e];
      }
    }

    /** `fetchEventsSince`: GET the remote events newer than `since`. */
    method FetchEventsSince(since: int) returns (r: Option<seq<Event>>)
      ensures r == reply(delivered, since)
    {
      r := reply(delivered, since);
    }
  }

  /** How many of the events `local`, pushed one after the other onto a peer
      that already received `d`, get through before the first push that
      throws. */
  function AcceptedPrefix(accepts: (seq<Event>, Event) -> bool, d: seq<Event>, local: seq<Event>): (n: nat)
    ensures n <= |local|
    ensures forall k :: 0 <= k < n ==> accepts(d + local[..k], local[k])
    ensures n < |local| ==> !accepts(d + local[..n], local[n])
    decreases |local|
  {
    if local == [] || !accepts(d, local[0]) then 0
    else
      var n := 1 + AcceptedPrefix(accepts, d + [local[0]], local[1..]);
      assert forall k :: 1 <= k <= |local| ==> d + [local[0]] + local[1..][..k - 1] == d + local[..k];
      assert forall k :: 1 <= k < |local| ==> local[1..][k - 1] == local[k];
      assert d + local[..0] == d;
      n
  }

  /** `Math.max(...remoteEvents.map(e => e.timestamp))` for a non-empty
      pull: the newest pulled timestamp. */
  function MaxTimestamp(es: seq<Event>): (t: int)
    requires |es| > 0
    ensures forall i :: 0 <= i < |es| ==> es[i].timestamp <= t
    ensures exists i :: 0 <= i < |es| && es[i].timestamp == t
  {
    if |es| == 1 then es[0].timestamp
    else
      var rest := MaxTimestamp(es[1..]);
      assert forall i :: 1 <= i < |es| ==> es[i] == es[1..][i - 1];
      if es[0].timestamp >= rest then es[0].timestamp else rest
  }

  /** The local events after putting the pulled events one by one, the `k`-th
      re-stamped with the clock reading `clock(k)`. */
  function PutAll(m: map<string, Event>, pulled: seq<Event>, clock: nat -> int): (r: map<string, Event>)
    ensures r.Keys == m.Keys + Ids(pulled)
    ensures forall id :: id in m && id !in Ids(pulled) ==> r[id] == m[id]
    ensures KeyedById(m) ==> KeyedById(r)
    decreases |pulled|
  {
    if pulled == [] then m
    else
      var n := |pulled| - 1;
      IdsSnoc(pulled);
      PutAll(m, pulled[..n], clock)[pulled[n].id := Stamp(Unstamp(pulled[n]), clock(n))]
  }

  /** The index of the last event of `s` with id `id`. */
  function LastWithId(s: seq<Event>, id: string): (k: int)
    ensures -1 <= k < |s|
    ensures k >= 0 ==> s[k].id == id
    ensures forall i :: k < i < |s| ==> s[i].id != id
    decreases |s|
  {
    if s == [] then -1
    else if s[|s| - 1].id == id then |s| - 1
    else LastWithId(s[..|s| - 1], id)
  }

  /** A pulled event is stored with every field of the last pulled event
      with its id, except the timestamp, which is the local clock reading
      of its put. */
  lemma PutAllKeepsAllButTimestamp(m: map<string, Event>, pulled: seq<Event>, clock: nat -> int, id: string)
    requires id in Ids(pulled)
    ensures LastWithId(pulled, id) >= 0
    ensures PutAll(m, pulled, clock)[id]
         == pulled[LastWithId(pulled, id)].(timestamp := clock(LastWithId(pulled, id)))
  {
    var i :| 0 <= i < |pulled| && pulled[i].id == id;
    assert LastWithId(pulled, id) >= i;
    PutAllLast(m, pulled, clock, id);
  }

  lemma {:induction false} PutAllLast(m: map<string, Event>, pulled: seq<Event>, clock: nat -> int, id: string)
    requires LastWithId(pulled, id) >= 0
    ensures id in PutAll(m, pulled, clock)
    ensures PutAll(m, pulled, clock)[id]
         == pulled[LastWithId(pulled, id)].(timestamp := clock(LastWithId(pulled, id)))
    decreases |pulled|
  {
    var n := |pulled| - 1;
    PutAllSnoc(m, pulled, clock);
    if pulled[n].id == id {
      RestampKeepsAllButTimestamp(pulled[n], clock(n));
    } else {
      var k := LastWithId(pulled, id);
      PutAllLast(m, pulled[..n], clock, id);
      assert pulled[..n][k] == pulled[k];
    }
  }

  /** The ids of a non-empty sequence are those of its prefix and its last. */
  lemma IdsSnoc(s: seq<Event>)
    requires s != []
    ensures Ids(s) == Ids(s[..|s| - 1]) + {s[|s| - 1].id}
  {
    assert forall i :: 0 <= i < |s| - 1 ==> s[..|s| - 1][i] == s[i];
  }

  /** Putting one more pulled event is one more keyed put. */
  lemma PutAllSnoc(m: map<string, Event>, pulled: seq<Event>, clock: nat -> int)
    requires pulled != []
    ensures var n := |pulled| - 1;
      PutAll(m, pulled, clock) == PutAll(m, pulled[..n], clock)[pulled[n].id := Stamp(Unstamp(pulled[n]), clock(n))]
  {
  }

  datatype SyncOutcome = Synced | PushFailed | PullFailed

  /** The push loop of `sync`: push the events one after the other, in
      order, stopping at the first push that throws. */
  method PushAll(remote: Gateway, events: seq<Event>) returns (ok: bool)
    modifies remote
    ensures remote.delivered
         == old(remote.delivered) + events[..AcceptedPrefix(remote.accepts, old(remote.delivered), events)]
    ensures ok <==> AcceptedPrefix(remote.accepts, old(remote.delivered), events) == |events|
  {
    ghost var d0 := remote.delivered;
    var i := 0;
    while i < |events|
      invariant 0 <= i <= |events|
      invariant remote.delivered == d0 + events[..i]
      invariant forall k :: 0 <= k < i ==> remote.accepts(d0 + events[..k], events[k])
      invariant AcceptedPrefix(remote.accepts, d0, events) >= i
    {
      ok := remote.PushEvent(events[i]);
      if !ok {
        AcceptedPrefixStops(remote.accepts, d0, events, i);
        return;
      }
      assert events[..i + 1] == events[..i] + [events[i]];
      i := i + 1;
    }
    assert events[..|events|] == events;
    ok := true;
  }

  /** The accepted prefix is exactly `i` when the first `i` pushes went
      through and the next one throws. */
  lemma AcceptedPrefixStops(accepts: (seq<Event>, Event) -> bool, d: seq<Event>, local: seq<Event>, i: nat)
    requires i < |local|
    requires AcceptedPrefix(accepts, d, local) >= i
    requires !accepts(d + local[..i], local[i])
    ensures AcceptedPrefix(accepts, d, local) == i
  {
  }

  /** The put loop of `sync`: add each pulled event, the `k`-th with the
      clock reading `clock(k)`. */
  method PutPulled(store: LocalEventStore, pulled: seq<Event>, clock: nat -> int)
    requires store.Valid()
    modifies store
    ensures store.Valid()
    ensures store.events == PutAll(old(store.events), pulled, clock)
    ensures store.meta == old(store.meta)
  {
    var j := 0;
    while j < |pulled|
      invariant 0 <= j <= |pulled|
      invariant store.Valid()
      invariant store.events == PutAll(old(store.events), pulled[..j], clock)
      invariant store.meta == old(store.meta)
    {
      assert pulled[..j + 1][..j] == pulled[..j];
      PutAllSnoc(old(store.events), pulled[..j + 1], clock);
      store.AddEvent(Unstamp(pulled[j]), clock(j));
      j := j + 1;
    }
    assert pulled[..|pulled|] == pulled;
  }

  /** `sync`. The watermark `w` is read first; every event stored at that
      point is pushed, in the order the store lists them (`local`); the
      pull asks for events newer than `w`; each pulled event is put into the
      store with the clock reading `clock(k)` for the `k`-th; then, if the
      pull was not empty, the watermark becomes the newest remote timestamp.
      A push or pull that throws ends the cycle there. */
  method Sync(store: LocalEventStore, remote: Gateway, clock: nat -> int)
    returns (outcome: SyncOutcome, ghost local: seq<Event>, ghost pulled: seq<Event>)
    requires store.Valid()
    modifies store, remote
    ensures store.Valid()
    ensures Enumerates(local, old(store.events))
    // Push phase: the accepted prefix of the local events was delivered.
    ensures remote.delivered
         == old(remote.delivered) + local[..AcceptedPrefix(remote.accepts, old(remote.delivered), local)]
    ensures outcome == PushFailed <==> AcceptedPrefix(remote.accepts, old(remote.delivered), local) < |local|
    // Pull phase: asked with the watermark read at the start.
    ensures outcome == PullFailed ==>
      remote.reply(old(remote.delivered) + local, LastSyncOf(old(store.meta))) == None
    ensures outcome == Synced ==>
      remote.reply(old(remote.delivered) + local, LastSyncOf(old(store.meta))) == Some(pulled)
    // A failed cycle leaves the store as it was.
    ensures outcome != Synced ==> store.events == old(store.events) && store.meta == old(store.meta)
    // A completed cycle puts every pulled event and advances the watermark.
    ensures outcome == Synced ==> store.events == PutAll(old(store.events), pulled, clock)
    ensures outcome == Synced && pulled == [] ==> store.meta == old(store.meta)
    ensures outcome == Synced && pulled != [] ==>
      store.meta == old(store.meta)[LastSyncKey := MaxTimestamp(pulled)]
    // Local events are never removed.
    ensures old(store.events).Keys <= store.events.Keys
    ensures outcome == Synced ==> store.events.Keys == old(store.events).Keys + Ids(pulled)
  {
    var lastSync := store.GetLastSync();
    var localEvents := store.GetAllEvents();
    local, pulled := localEvents, [];

    var pushed := PushAll(remote, localEvents);
    if !pushed {
      outcome := PushFailed;
      return;
    }
    assert localEvents[..|localEvents|] == localEvents;

    var response := remote.FetchEventsSince(lastSync);
    if response.None? {
      outcome := PullFailed;
      return;
    }
    var remoteEvents := response.value;
    pulled := remoteEvents;
    PutPulled(store, remoteEvents, clock);

    if |remoteEvents| > 0 {
      var latest := MaxTimestamp(remoteEvents);
      store.SaveLastSync(latest);
    }
    outcome := Synced;
  }

  /** When the peer honours the strict `timestamp > since` filter, a cycle
      that pulls something moves the watermark strictly forward, and the
      watermark is at least every pulled timestamp. */
  lemma WatermarkAdvances(meta: map<string, int>, pulled: seq<Event>)
    requires pulled != []
    requires forall i :: 0 <= i < |pulled| ==> pulled[i].timestamp > LastSyncOf(meta)
    ensures LastSyncOf(meta[LastSyncKey := MaxTimestamp(pulled)]) > LastSyncOf(meta)
    ensures forall i :: 0 <= i < |pulled| ==>
      pulled[i].timestamp <= LastSyncOf(meta[LastSyncKey := MaxTimestamp(pulled)])
  {
    assert pulled[0].timestamp <= MaxTimestamp(pulled);
  }
}
