/** The task view of the web client (web/src/features/tasks/TaskList.tsx):
    `projectTasks`, a left fold of the event log into a dictionary from
    entity id to task, and `toggleTask`, which appends a "checked" event and
    projects again. */
module TaskProjection {
  import opened Options
  import opened Seqs
  import opened Events
  import opened EventStore

  const TaskEntity: string := "task"
  const Created: string := "created"
  const Checked: string := "checked"
  const WebDevice: string := "web-device"

  /** A projected task. `title` is `payload.title`, `None` where the payload
      has no title (JavaScript's `undefined`). */
  datatype Task = Task(id: string, title: Option<string>, completed: bool)

  /** `payload.title`. */
  function TitleOf(p: Payload): Option<string> {
    if "title" in p then Some(p["title"]) else None
  }

  predicate IsTaskEvent(e: Event) {
    e.entityType == TaskEntity
  }

  /** `e` is a task "created" event for entity `x`. */
  predicate IsCreate(e: Event, x: string) {
    e.entityType == TaskEntity && e.eventType == Created && e.entityId == x
  }

  /** `e` is a task "checked" event for entity `x`. */
  predicate IsCheck(e: Event, x: string) {
    e.entityType == TaskEntity && e.eventType == Checked && e.entityId == x
  }

  /** One iteration of the loop body: a "created" event (re)sets its entry to
      an uncompleted task, a "checked" event completes an existing entry, and
      every other event is skipped. */
  function Step(m: map<string, Task>, e: Event): (r: map<string, Task>)
    ensures r.Keys == if IsCreate(e, e.entityId) then m.Keys + {e.entityId} else m.Keys
    ensures forall x :: x in m && x != e.entityId ==> r[x] == m[x]
    ensures e.entityId in m && !IsCreate(e, e.entityId) ==>
      r[e.entityId] == m[e.entityId] || r[e.entityId] == m[e.entityId].(completed := true)
  {
    if e.entityType != TaskEntity then m
    else if e.eventType == Created then
      m[e.entityId := Task(e.entityId, TitleOf(e.payload), false)]
    else if e.eventType == Checked && e.entityId in m then
      m[e.entityId := m[e.entityId].(completed := true)]
    else m
  }

  /** The task dictionary after folding `events` in the order given. Every
      task is stored under its own id. */
  function Project(events: seq<Event>): (r: map<string, Task>)
    ensures forall x :: x in r ==> r[x].id == x
    decreases |events|
  {
    if events == [] then map[]
    else Step(Project(events[..|events| - 1]), events[|events| - 1])
  }

  /** The dictionary's keys in order of first insertion: the order in which
      `Object.values` lists them. */
  function KeyOrder(events: seq<Event>): (r: seq<string>)
    ensures forall j, k :: 0 <= j < k < |r| ==> r[j] != r[k]
    ensures forall j :: 0 <= j < |r| ==> r[j] in Project(events)
    ensures forall x :: x in Project(events) ==> x in r
    decreases |events|
  {
    if events == [] then []
    else
      var prior := KeyOrder(events[..|events| - 1]);
      var e := events[|events| - 1];
      if e.entityType == TaskEntity && e.eventType == Created && e.entityId !in prior
      then prior + [e.entityId]
      else prior
  }

  /** `projectTasks`: runs the loop over `events` and returns the
      dictionary's values. */
  /** Extending the prefix by one event is one more step of the fold and of
      the key order. */
  lemma PrefixStep(events: seq<Event>, i: nat)
    requires i < |events|
    ensures Project(events[..i + 1]) == Step(Project(events[..i]), events[i])
    ensures KeyOrder(events[..i + 1]) ==
      if IsCreate(events[i], events[i].entityId) && events[i].entityId !in KeyOrder(events[..i])
      then KeyOrder(events[..i]) + [events[i].entityId]
      else KeyOrder(events[..i])
  {
    assert events[..i + 1][..i] == events[..i];
  }

  method ProjectTasks(events: seq<Event>) returns (tasks: seq<Task>)
    ensures |tasks| == |KeyOrder(events)|
    ensures forall j :: 0 <= j < |tasks| ==>
      tasks[j].id == KeyOrder(events)[j] && tasks[j] == Project(events)[tasks[j].id]
    ensures forall x :: x in Project(events) ==> exists j :: 0 <= j < |tasks| && tasks[j].id == x
  {
    var taskMap: map<string, Task> := map[];
    // The dictionary's property order, which JavaScript keeps implicitly.
    var keys: seq<string> := [];
    for i := 0 to |events|
      invariant taskMap == Project(events[..i])
      invariant keys == KeyOrder(events[..i])
    {
      PrefixStep(events, i);
      var e := events[i];
      if e.entityType != TaskEntity {
        continue;
      }
      if e.eventType == Created {
        if e.entityId !in keys {
          keys := keys + [e.entityId];
        }
        taskMap := taskMap[e.entityId := Task(e.entityId, TitleOf(e.payload), false)];
      }
      if e.eventType == Checked {
        if e.entityId in taskMap {
          taskMap := taskMap[e.entityId := taskMap[e.entityId].(completed := true)];
        }
      }
    }
    assert events[..|events|] == events;
    tasks := seq(|keys|, j requires 0 <= j < |keys| => taskMap[keys[j]]);
    forall x | x in Project(events)
      ensures exists j :: 0 <= j < |tasks| && tasks[j].id == x
    {
      var j :| 0 <= j < |keys| && keys[j] == x;
      assert tasks[j].id == x;
    }
  }

  /** The event `toggleTask` appends for task `id`. */
  function CheckedEvent(eventId: string, id: string): NewEvent {
    NewEvent(eventId, id, TaskEntity, Checked, map[], WebDevice)
  }

  /** `toggleTask`: appends one "checked" event for the task, stamped by the
      store, then re-projects the whole log as read back from the store. */
  method ToggleTask(store: LocalEventStore, id: string, eventId: string, now: int)
    returns (tasks: seq<Task>, ghost log: seq<Event>)
    requires store.Valid()
    modifies store
    ensures store.Valid()
    ensures store.events == old(store.events)[eventId := Stamp(CheckedEvent(eventId, id), now)]
    ensures store.meta == old(store.meta)
    ensures Enumerates(log, store.events)
    ensures |tasks| == |KeyOrder(log)|
    ensures forall j :: 0 <= j < |tasks| ==> tasks[j] == Project(log)[KeyOrder(log)[j]]
  {
    store.AddEvent(CheckedEvent(eventId, id), now);
    var events := store.GetAllEvents();
    log := events;
    tasks := ProjectTasks(events);
  }

  // ---------------------------------------------------------------------
  // What the fold computes

  /** The index of the last "created" event for `x`, or -1 when there is
      none. */
  function LastCreate(events: seq<Event>, x: string): (k: int)
    ensures -1 <= k < |events|
    ensures k >= 0 ==> IsCreate(events[k], x)
    ensures forall i :: k < i < |events| ==> !IsCreate(events[i], x)
    decreases |events|
  {
    if events == [] then -1
    else if IsCreate(events[|events| - 1], x) then |events| - 1
    else LastCreate(events[..|events| - 1], x)
  }

  /** Some "checked" event for `x` comes after index `k`. */
  predicate CheckedAfter(events: seq<Event>, k: int, x: string)
    requires -1 <= k
  {
    exists j :: k < j < |events| && IsCheck(events[j], x)
  }

  /** The projected tasks are exactly the entities with a task "created"
      event. Such a task has the title of its last "created" event and is
      completed exactly when a "checked" event for it follows that event in
      the order folded. */
  lemma {:induction false} ProjectCharacterization(events: seq<Event>, x: string)
    ensures x in Project(events) <==> LastCreate(events, x) >= 0
    ensures x in Project(events) ==>
      var k := LastCreate(events, x);
      Project(events)[x] == Task(x, TitleOf(events[k].payload), CheckedAfter(events, k, x))
    decreases |events|
  {
    if events != [] {
      ProjectCharacterization(events[..|events| - 1], x);
      CharacterizationStep(events, x);
    }
  }

  lemma CharacterizationStep(events: seq<Event>, x: string)
    requires events != []
    requires var prefix := events[..|events| - 1];
      && (x in Project(prefix) <==> LastCreate(prefix, x) >= 0)
      && (x in Project(prefix) ==>
            Project(prefix)[x] == Task(x, TitleOf(prefix[LastCreate(prefix, x)].payload),
                                       CheckedAfter(prefix, LastCreate(prefix, x), x)))
    ensures x in Project(events) <==> LastCreate(events, x) >= 0
    ensures x in Project(events) ==>
      var k := LastCreate(events, x);
      Project(events)[x] == Task(x, TitleOf(events[k].payload), CheckedAfter(events, k, x))
  {
    var n := |events| - 1;
    var prefix, e := events[..n], events[n];
    var k := LastCreate(events, x);
    if IsCreate(e, x) {
      assert k == n;
      assert !CheckedAfter(events, k, x);
    } else if k >= 0 {
      assert k == LastCreate(prefix, x);
      assert events[k] == prefix[k];
      if IsCheck(e, x) {
        assert CheckedAfter(events, k, x);
      } else {
        CheckedAfterSkipsLast(events, k, x);
      }
    }
  }

  /** A last event that is not a "checked" event for `x` does not change
      whether one follows index `k`. */
  lemma CheckedAfterSkipsLast(events: seq<Event>, k: int, x: string)
    requires -1 <= k < |events| - 1
    requires !IsCheck(events[|events| - 1], x)
    ensures CheckedAfter(events, k, x) == CheckedAfter(events[..|events| - 1], k, x)
  {
    var prefix := events[..|events| - 1];
    if CheckedAfter(events, k, x) {
      var j :| k < j < |events| && IsCheck(events[j], x);
      assert IsCheck(prefix[j], x);
    }
    if CheckedAfter(prefix, k, x) {
      var j :| k < j < |prefix| && IsCheck(prefix[j], x);
      assert IsCheck(events[j], x);
    }
  }

  /** Events of other entity types have no effect on the projection. */
  lemma {:induction false} NonTaskEventsIgnored(events: seq<Event>)
    ensures Project(Filter(IsTaskEvent, events)) == Project(events)
    decreases |events|
  {
    if events != [] {
      NonTaskEventsIgnored(events[..|events| - 1]);
      NonTaskStep(events);
    }
  }

  lemma NonTaskStep(events: seq<Event>)
    requires events != []
    requires Project(Filter(IsTaskEvent, events[..|events| - 1])) == Project(events[..|events| - 1])
    ensures Project(Filter(IsTaskEvent, events)) == Project(events)
  {
    var prefix, e := events[..|events| - 1], events[|events| - 1];
    SplitLast(events);
    FilterConcat(IsTaskEvent, prefix, [e]);
    if IsTaskEvent(e) {
      TaskEventKept(prefix, e);
    } else {
      OtherEventDropped(prefix, e);
    }
  }

  lemma TaskEventKept(prefix: seq<Event>, e: Event)
    requires IsTaskEvent(e)
    requires Project(Filter(IsTaskEvent, prefix)) == Project(prefix)
    ensures Project(Filter(IsTaskEvent, prefix) + Filter(IsTaskEvent, [e])) == Project(prefix + [e])
  {
    FilterSingleton(IsTaskEvent, e);
    ProjectSnoc(Filter(IsTaskEvent, prefix), e);
    ProjectSnoc(prefix, e);
  }

  lemma OtherEventDropped(prefix: seq<Event>, e: Event)
    requires !IsTaskEvent(e)
    requires Project(Filter(IsTaskEvent, prefix)) == Project(prefix)
    ensures Project(Filter(IsTaskEvent, prefix) + Filter(IsTaskEvent, [e])) == Project(prefix + [e])
  {
    FilterSingleton(IsTaskEvent, e);
    assert Filter(IsTaskEvent, prefix) + [] == Filter(IsTaskEvent, prefix);
    ProjectSnoc(prefix, e);
  }

  /** Folding one more event is one more step. */
  lemma ProjectSnoc(s: seq<Event>, e: Event)
    ensures Project(s + [e]) == Step(Project(s), e)
  {
    assert (s + [e])[..|s|] == s;
  }

  /** Whether an event concerns entity `x`. */
  function Concerns(x: string): Event -> bool {
    (e: Event) => e.entityId == x
  }

  /** The events that concern entity `x`. */
  function EventsFor(events: seq<Event>, x: string): seq<Event> {
    Filter(Concerns(x), events)
  }

  /** The projection's entry for `x`, if any. */
  function Lookup(m: map<string, Task>, x: string): Option<Task> {
    if x in m then Some(m[x]) else None
  }

  /** One fold step changes the entry for `x` only through the entry for
      `x`, and only when the event concerns `x`. */
  lemma StepLookup(m1: map<string, Task>, m2: map<string, Task>, e: Event, x: string)
    requires Lookup(m1, x) == Lookup(m2, x)
    ensures Lookup(Step(m1, e), x) == Lookup(Step(m2, e), x)
    ensures e.entityId != x ==> Lookup(Step(m1, e), x) == Lookup(m1, x)
  {
  }

  /** Each task's projection depends only on the events about that task, in
      their relative order. */
  lemma {:induction false} ProjectPerEntity(events: seq<Event>, x: string)
    ensures Lookup(Project(events), x) == Lookup(Project(EventsFor(events, x)), x)
    decreases |events|
  {
    if events != [] {
      var n := |events| - 1;
      ProjectPerEntity(events[..n], x);
      assert events == events[..n] + [events[n]];
      FilterConcat(Concerns(x), events[..n], [events[n]]);
      if events[n].entityId == x {
        PerEntityConcerned(events[..n], events[n], x);
      } else {
        PerEntityUnconcerned(events[..n], events[n], x);
      }
    }
  }

  lemma PerEntityConcerned(prefix: seq<Event>, e: Event, x: string)
    requires e.entityId == x
    requires Lookup(Project(prefix), x) == Lookup(Project(EventsFor(prefix, x)), x)
    requires EventsFor(prefix + [e], x) == EventsFor(prefix, x) + Filter(Concerns(x), [e])
    ensures Lookup(Project(prefix + [e]), x) == Lookup(Project(EventsFor(prefix + [e], x)), x)
  {
    var kept := EventsFor(prefix, x);
    assert Filter(Concerns(x), [e]) == [e];
    assert (prefix + [e])[..|prefix|] == prefix;
    assert (kept + [e])[..|kept|] == kept;
    StepLookup(Project(prefix), Project(kept), e, x);
  }

  lemma PerEntityUnconcerned(prefix: seq<Event>, e: Event, x: string)
    requires e.entityId != x
    requires Lookup(Project(prefix), x) == Lookup(Project(EventsFor(prefix, x)), x)
    requires EventsFor(prefix + [e], x) == EventsFor(prefix, x) + Filter(Concerns(x), [e])
    ensures Lookup(Project(prefix + [e]), x) == Lookup(Project(EventsFor(prefix + [e], x)), x)
  {
    assert Filter(Concerns(x), [e]) == [];
    assert EventsFor(prefix + [e], x) == EventsFor(prefix, x);
    assert (prefix + [e])[..|prefix|] == prefix;
    StepLookup(Project(prefix), Project(prefix), e, x);
  }

  /** Interleaving the events of distinct entities differently leaves every
      task's projection unchanged. */
  lemma InterleavingIrrelevant(a: seq<Event>, b: seq<Event>, x: string)
    requires EventsFor(a, x) == EventsFor(b, x)
    ensures Lookup(Project(a), x) == Lookup(Project(b), x)
  {
    ProjectPerEntity(a, x);
    ProjectPerEntity(b, x);
  }

  /** Folding any event twice in a row is folding it once; in particular a
      repeated "checked" event changes nothing more. */
  lemma StepIdempotent(m: map<string, Task>, e: Event)
    ensures Step(Step(m, e), e) == Step(m, e)
  {
  }

  /** A "checked" event never adds a task and never un-completes one; for an
      absent task it is a silent no-op. */
  lemma {:induction false} CheckedOnlyCompletes(events: seq<Event>, e: Event)
    requires e.eventType == Checked
    ensures Project(events + [e]).Keys == Project(events).Keys
    ensures forall x :: x in Project(events) && x != e.entityId ==>
      Project(events + [e])[x] == Project(events)[x]
    ensures forall x :: x in Project(events) && Project(events)[x].completed ==>
      Project(events + [e])[x].completed
    ensures e.entityId !in Project(events) ==> Project(events + [e]) == Project(events)
    ensures IsTaskEvent(e) && e.entityId in Project(events) ==>
      Project(events + [e])[e.entityId].completed
  {
    assert (events + [e])[..|events|] == events;
  }

  // ---------------------------------------------------------------------
  // Fold order

  /** The fold as the web client was evidently meant to run it: events
      applied in ascending timestamp order, whatever order the store returns
      them in. */
  function ProjectInTimeOrder(events: seq<Event>): (r: map<string, Task>)
    ensures forall x :: x in r <==> exists i :: 0 <= i < |events| && IsCreate(events[i], x)
  {
    TimeOrderKeys(events);
    Project(SortByTimestamp(events))
  }

  /** The tasks of the time-ordered fold are exactly the entities with a
      "created" event, wherever it is listed. */
  lemma TimeOrderKeys(events: seq<Event>)
    ensures forall x :: x in Project(SortByTimestamp(events)) <==>
      exists i :: 0 <= i < |events| && IsCreate(events[i], x)
  {
    var sorted := SortByTimestamp(events);
    SameElements(sorted, events);
    forall x ensures x in Project(sorted) <==> exists i :: 0 <= i < |events| && IsCreate(events[i], x) {
      ProjectCharacterization(sorted, x);
      if x in Project(sorted) {
        var k := LastCreate(sorted, x);
        assert sorted[k] in events;
        var i :| 0 <= i < |events| && events[i] == sorted[k];
        assert IsCreate(events[i], x);
      }
      if exists i :: 0 <= i < |events| && IsCreate(events[i], x) {
        var i :| 0 <= i < |events| && IsCreate(events[i], x);
        assert events[i] in sorted;
        var k :| 0 <= k < |sorted| && sorted[k] == events[i];
        assert LastCreate(sorted, x) >= k;
      }
    }
  }

  /** With distinct timestamps, the time-ordered projection does not depend
      on the order the store returns the events in. */
  lemma TimeOrderIgnoresStorageOrder(a: seq<Event>, b: seq<Event>)
    requires multiset(a) == multiset(b)
    requires DistinctTimestamps(a)
    ensures ProjectInTimeOrder(a) == ProjectInTimeOrder(b)
  {
    SortKeepsDistinctTimestamps(a);
    SortedArrangementUnique(SortByTimestamp(a), SortByTimestamp(b));
  }

  /** A task created at time 5 and checked at time 10. */
  function CreatedAt5(): Event {
    Event("ev-1", "e1", TaskEntity, Created, map["title" := "Buy milk"], 5, WebDevice)
  }

  function CheckedAt10(): Event {
    Event("ev-2", "e1", TaskEntity, Checked, map[], 10, WebDevice)
  }

  /** As written, a "checked" event handed over before its task's "created"
      event is lost, although it is later in time. */
  lemma AsWrittenLosesEarlierListedCheck()
    ensures Lookup(Project([CheckedAt10(), CreatedAt5()]), "e1") == Some(Task("e1", Some("Buy milk"), false))
    ensures Lookup(Project([CreatedAt5(), CheckedAt10()]), "e1") == Some(Task("e1", Some("Buy milk"), true))
  {
    assert [CheckedAt10(), CreatedAt5()][..1] == [CheckedAt10()];
    assert Project([CheckedAt10()]) == map[];
    CreatedThenChecked();
  }

  /** Folding the creation and then the check leaves the task checked. */
  lemma CreatedThenChecked()
    ensures Lookup(Project([CreatedAt5(), CheckedAt10()]), "e1") == Some(Task("e1", Some("Buy milk"), true))
  {
    assert [CreatedAt5(), CheckedAt10()][..1] == [CreatedAt5()];
    assert Project([CreatedAt5()]) == map["e1" := Task("e1", Some("Buy milk"), false)];
  }

  /** The two events already in time order stay in that order. */
  lemma InTimeOrderAlready()
    ensures SortByTimestamp([CreatedAt5(), CheckedAt10()]) == [CreatedAt5(), CheckedAt10()]
  {
    var created, checked := CreatedAt5(), CheckedAt10();
    assert [created, checked][1..] == [checked];
    assert [checked][1..] == [];
    assert SortByTimestamp([checked]) == [checked];
  }

  lemma TimeOrderKeepsCheck()
    ensures Lookup(ProjectInTimeOrder([CheckedAt10(), CreatedAt5()]), "e1") == Some(Task("e1", Some("Buy milk"), true))
    ensures Lookup(ProjectInTimeOrder([CreatedAt5(), CheckedAt10()]), "e1") == Some(Task("e1", Some("Buy milk"), true))
  {
    InTimeOrderProjects();
    ListingIrrelevant();
    CreatedThenChecked();
  }

  /** The time-ordered fold of the listing already in time order is the
      plain fold. */
  lemma InTimeOrderProjects()
    ensures ProjectInTimeOrder([CreatedAt5(), CheckedAt10()]) == Project([CreatedAt5(), CheckedAt10()])
  {
    InTimeOrderAlready();
  }

  /** Both listings of the example fold alike in time order. */
  lemma ListingIrrelevant()
    ensures ProjectInTimeOrder([CheckedAt10(), CreatedAt5()]) == ProjectInTimeOrder([CreatedAt5(), CheckedAt10()])
  {
    var inOrder, reversed := [CreatedAt5(), CheckedAt10()], [CheckedAt10(), CreatedAt5()];
    assert multiset(inOrder) == multiset(reversed);
    assert DistinctTimestamps(inOrder);
    TimeOrderIgnoresStorageOrder(inOrder, reversed);
  }
}
