/** The task-creation form of the web client
    (web/src/features/tasks/AddTask.tsx): `createTask` appends a "created"
    event for a fresh entity, unless the typed title is blank. */
module AddTask {
  import opened Options
  import opened Events
  import opened EventStore
  import opened JsStrings
  import opened TaskProjection

  /** The object `createTask` hands to `addEvent`: two fresh identifiers,
      the untrimmed title as payload, and the form's own clock reading
      `clientNow`. */
  function CreatedEvent(eventId: string, entityId: string, title: string, clientNow: int): Event {
    Event(eventId, entityId, TaskEntity, Created, map["title" := title], clientNow, WebDevice)
  }

  /** The store discards the form's clock reading: what is stored does not
      depend on it, only on the store's own reading `now`. */
  lemma FormTimestampDiscarded(eventId: string, entityId: string, title: string, c1: int, c2: int, now: int)
    ensures Stamp(Unstamp(CreatedEvent(eventId, entityId, title, c1)), now)
         == Stamp(Unstamp(CreatedEvent(eventId, entityId, title, c2)), now)
    ensures Stamp(Unstamp(CreatedEvent(eventId, entityId, title, c1)), now).timestamp == now
  {
  }

  /** Folding the "created" event yields an uncompleted task under the new
      entity id with the untrimmed title, whatever came before. */
  lemma {:induction false} CreatedTaskAppears(events: seq<Event>, eventId: string, entityId: string, title: string, now: int)
    ensures var e := Stamp(Unstamp(CreatedEvent(eventId, entityId, title, now)), now);
      Lookup(Project(events + [e]), entityId) == Some(Task(entityId, Some(title), false))
  {
    var e := Stamp(Unstamp(CreatedEvent(eventId, entityId, title, now)), now);
    assert (events + [e])[..|events|] == events;
  }

  class AddTaskForm {
    /** The controlled input's value. */
    var title: string
    /** How many times the `onAdd` callback has been called. */
    var onAddCalls: nat

    constructor ()
      ensures title == "" && onAddCalls == 0
    {
      title := "";
      onAddCalls := 0;
    }

    /** The input's `onChange`. */
    method SetTitle(value: string)
      modifies this
      ensures title == value && onAddCalls == old(onAddCalls)
    {
      title := value;
    }

    /** `createTask`: when the title is not blank, appends one "created" event
        through the store (which stamps it with `now`), clears the input and
        calls `onAdd` once; a blank title changes nothing. */
    method CreateTask(store: LocalEventStore, eventId: string, entityId: string, clientNow: int, now: int)
      returns (appended: bool)
      requires store.Valid()
      modifies this, store
      ensures store.Valid()
      ensures appended <==> Trim(old(title)) != ""
      ensures !appended ==>
        store.events == old(store.events) && title == old(title) && onAddCalls == old(onAddCalls)
      ensures appended ==>
        && store.events == old(store.events)[eventId := Stamp(Unstamp(CreatedEvent(eventId, entityId, old(title), clientNow)), now)]
        && title == ""
        && onAddCalls == old(onAddCalls) + 1
      ensures store.meta == old(store.meta)
    {
      if Trim(title) == "" {
        return false;
      }
      store.AddEvent(Unstamp(CreatedEvent(eventId, entityId, title, clientNow)), now);
      title := "";
      onAddCalls := onAddCalls + 1;
      appended := true;
    }
  }
}
