/**
 * The calendar's event store: a map from a date string to the ordered list
 * of events on that date, loaded whole by a request that reads or changes
 * it, changed in place by adding one event or deleting every event with an
 * id, and written back whole.
 *
 * The pure functions AddedTo, DeletedFrom and EventsOn state what each
 * operation does to the map; the class Store holds the loaded map and
 * performs the operations in place, proved against those functions.
 */
module EventStore {
  import opened Wrappers

  /** An event's identifier: the float timestamp taken when it was added, compared only for equality. */
  type EventId = real

  datatype Event = Event(title: string, time: string, description: string, id: EventId)

  type Events = map<string, seq<Event>>

  /** What the events file holds when a request reads it. */
  datatype EventsFile = Missing | Undecodable | Decoded(events: Events)

  /** A form field counts as given when present and non-empty. */
  predicate Filled(field: Option<string>): (r: bool)
    ensures r <==> field != None && field != Some("")
  {
    field.Some? && field.value != ""
  }

  /** Every date in the store has at least one event. */
  predicate NoEmptyBuckets(store: Events) {
    forall date :: date in store ==> store[date] != []
  }

  /** No two events of a list share an id. */
  predicate DistinctIds(es: seq<Event>) {
    forall i, j :: 0 <= i < j < |es| ==> es[i].id != es[j].id
  }

  /** The store a request works on: a missing or undecodable file reads as empty. */
  function LoadEvents(file: EventsFile): (r: Events)
    ensures file.Decoded? ==> r == file.events
    ensures forall date :: date in r ==> file.Decoded? && date in file.events
  {
    if file.Decoded? then file.events else map[]
  }

  /**
   * The events listed for a date. In a store without empty lists, the
   * lookup is empty exactly when the date is absent.
   */
  function EventsOn(store: Events, date: string): (r: seq<Event>)
    ensures r != [] ==> date in store && r == store[date]
    ensures NoEmptyBuckets(store) ==> (r == [] <==> date !in store)
  {
    if date in store then store[date] else []
  }

  /** The events of a list whose id differs from `id`, in their original order. */
  function WithoutId(es: seq<Event>, id: EventId): (r: seq<Event>)
    ensures |r| <= |es|
    ensures forall i :: 0 <= i < |r| ==> r[i].id != id
  {
    if es == [] then []
    else if es[0].id != id then [es[0]] + WithoutId(es[1..], id)
    else WithoutId(es[1..], id)
  }

  /**
   * The store after an event is appended to a date's list (the list created
   * if absent); every other date keeps its list.
   */
  function AddedTo(store: Events, date: string, e: Event): (r: Events)
    ensures date in r && r[date] == EventsOn(store, date) + [e]
    ensures date !in store ==> r[date] == [e]
    ensures r.Keys == store.Keys + {date}
    ensures forall d :: d != date && d in store ==> r[d] == store[d]
  {
    store[date := EventsOn(store, date) + [e]]
  }

  /**
   * The store after every event with `id` is removed from a date's list (the
   * date dropped if left empty); an absent date and every other date are
   * left as they are.
   */
  function DeletedFrom(store: Events, date: string, id: EventId): (r: Events)
    ensures date !in store ==> r == store
    ensures date in store && WithoutId(store[date], id) == [] ==> r.Keys == store.Keys - {date}
    ensures date in store && WithoutId(store[date], id) != [] ==>
      r.Keys == store.Keys && r[date] == WithoutId(store[date], id)
    ensures forall d :: d != date && d in store ==> r[d] == store[d]
  {
    if date !in store then store
    else
      var kept := WithoutId(store[date], id);
      if kept == [] then store - {date} else store[date := kept]
  }

  // ---------------------------------------------------------------------
  // The filter

  /** Filtering a concatenation filters each part and keeps them in order. */
  lemma {:induction false} WithoutIdConcat(a: seq<Event>, b: seq<Event>, id: EventId)
    ensures WithoutId(a + b, id) == WithoutId(a, id) + WithoutId(b, id)
  {
    if a == [] {
      assert a + b == b;
    } else {
      assert (a + b)[0] == a[0];
      assert (a + b)[1..] == a[1..] + b;
      WithoutIdConcat(a[1..], b, id);
    }
  }

  /** Every event whose id differs is kept as often as it occurred; every event with the id is gone. */
  lemma {:induction false} WithoutIdCount(es: seq<Event>, id: EventId, e: Event)
    ensures multiset(WithoutId(es, id))[e] == if e.id == id then 0 else multiset(es)[e]
  {
    if es != [] {
      WithoutIdCount(es[1..], id, e);
      assert es == [es[0]] + es[1..];
      assert multiset(es) == multiset([es[0]]) + multiset(es[1..]);
    }
  }

  /** A list without the id is left as it is. */
  lemma {:induction false} WithoutIdNoMatch(es: seq<Event>, id: EventId)
    requires forall i :: 0 <= i < |es| ==> es[i].id != id
    ensures WithoutId(es, id) == es
  {
    if es != [] {
      WithoutIdNoMatch(es[1..], id);
    }
  }

  lemma WithoutIdIdempotent(es: seq<Event>, id: EventId)
    ensures WithoutId(WithoutId(es, id), id) == WithoutId(es, id)
  {
    WithoutIdNoMatch(WithoutId(es, id), id);
  }

  // ---------------------------------------------------------------------
  // Adding

  lemma AddedToKeepsNoEmptyBuckets(store: Events, date: string, e: Event)
    requires NoEmptyBuckets(store)
    ensures NoEmptyBuckets(AddedTo(store, date, e))
  {
  }

  /** Ids on the date stay distinct when the new id is not already there. */
  lemma AddedToKeepsIdsDistinct(store: Events, date: string, e: Event)
    requires DistinctIds(EventsOn(store, date))
    requires forall i :: 0 <= i < |EventsOn(store, date)| ==> EventsOn(store, date)[i].id != e.id
    ensures DistinctIds(EventsOn(AddedTo(store, date, e), date))
  {
  }

  // ---------------------------------------------------------------------
  // Deleting

  /** Afterwards no event with the id is on the date, and every other event there keeps its multiplicity. */
  lemma DeletedFromRemovesExactlyId(store: Events, date: string, id: EventId, e: Event)
    ensures forall i :: 0 <= i < |EventsOn(DeletedFrom(store, date, id), date)| ==>
      EventsOn(DeletedFrom(store, date, id), date)[i].id != id
    ensures multiset(EventsOn(DeletedFrom(store, date, id), date))[e] ==
      if e.id == id then 0 else multiset(EventsOn(store, date))[e]
  {
    if date in store {
      WithoutIdCount(store[date], id, e);
    }
  }

  lemma DeletedFromKeepsNoEmptyBuckets(store: Events, date: string, id: EventId)
    requires NoEmptyBuckets(store)
    ensures NoEmptyBuckets(DeletedFrom(store, date, id))
  {
  }

  lemma DeletedFromIdempotent(store: Events, date: string, id: EventId)
    ensures DeletedFrom(DeletedFrom(store, date, id), date, id) == DeletedFrom(store, date, id)
  {
    if date in store {
      WithoutIdIdempotent(store[date], id);
    }
  }

  /** Deleting an event just added under a fresh id gives back the store as it was. */
  lemma DeleteUndoesAdd(store: Events, date: string, e: Event)
    requires NoEmptyBuckets(store)
    requires forall i :: 0 <= i < |EventsOn(store, date)| ==> EventsOn(store, date)[i].id != e.id
    ensures DeletedFrom(AddedTo(store, date, e), date, e.id) == store
  {
    var before := EventsOn(store, date);
    WithoutIdConcat(before, [e], e.id);
    WithoutIdNoMatch(before, e.id);
    assert WithoutId([e], e.id) == [];
    assert WithoutId(before + [e], e.id) == before;
  }

  /** Add "Meeting" to an empty store, then delete it: one event in between, none and no key after. */
  lemma MeetingScenario(id: EventId)
    ensures var added := AddedTo(map[], "2024-03-15", Event("Meeting", "", "", id));
      && EventsOn(added, "2024-03-15") == [Event("Meeting", "", "", id)]
      && var deleted := DeletedFrom(added, "2024-03-15", id);
      && "2024-03-15" !in deleted
      && EventsOn(deleted, "2024-03-15") == []
  {
    var e := Event("Meeting", "", "", id);
    assert WithoutId([e], id) == [];
  }

  // ---------------------------------------------------------------------
  // The loaded store, changed in place

  class Store {
    var events: Events

    /** Loads the store from the events file; a missing or undecodable file gives an empty store. */
    constructor Load(file: EventsFile)
      ensures events == LoadEvents(file)
    {
      events := LoadEvents(file);
    }

    /**
     * Appends an event to the date's list when both date and title are
     * given; time and description default to the empty string.
     */
    method AddEvent(date: Option<string>, title: Option<string>, time: Option<string>,
                    description: Option<string>, id: EventId)
      modifies this
      ensures Filled(date) && Filled(title) ==>
        events == AddedTo(old(events), date.value, Event(title.value, time.GetOr(""), description.GetOr(""), id))
      ensures !(Filled(date) && Filled(title)) ==> events == old(events)
      ensures NoEmptyBuckets(old(events)) ==> NoEmptyBuckets(events)
    {
      if Filled(date) && Filled(title) {
        var d := date.value;
        if d !in events {
          events := events[d := []];
        }
        events := events[d := events[d] + [Event(title.value, time.GetOr(""), description.GetOr(""), id)]];
      }
    }

    /** Removes every event with the id from the date's list, dropping the date when nothing is left. */
    method DeleteEvent(date: string, id: EventId)
      modifies this
      ensures events == DeletedFrom(old(events), date, id)
      ensures NoEmptyBuckets(old(events)) ==> NoEmptyBuckets(events)
    {
      if date in events {
        events := events[date := WithoutId(events[date], id)];
        if events[date] == [] {
          events := events - {date};
        }
      }
    }

    /** The date's events, or none when the date is absent; the store is not changed. */
    method GetEvents(date: string) returns (r: seq<Event>)
      ensures r == EventsOn(events, date)
    {
      r := EventsOn(events, date);
    }
  }

  // ---------------------------------------------------------------------
  // One request each: what an add or delete request writes back, and what a lookup returns

  /** The store written back by an add request, or None when the file is not rewritten. */
  method AddEventRequest(file: EventsFile, date: Option<string>, title: Option<string>,
                         time: Option<string>, description: Option<string>, id: EventId)
    returns (written: Option<Events>)
    ensures Filled(date) && Filled(title) ==>
      written == Some(AddedTo(LoadEvents(file), date.value, Event(title.value, time.GetOr(""), description.GetOr(""), id)))
    ensures !(Filled(date) && Filled(title)) ==> written == None
  {
    written := None;
    if Filled(date) && Filled(title) {
      var store := new Store.Load(file);
      store.AddEvent(date, title, time, description, id);
      written := Some(store.events);
    }
  }

  /** The store written back by a delete request, or None when the date is not in the file's store. */
  method DeleteEventRequest(file: EventsFile, date: string, id: EventId) returns (written: Option<Events>)
    ensures date in LoadEvents(file) ==> written == Some(DeletedFrom(LoadEvents(file), date, id))
    ensures date !in LoadEvents(file) ==> written == None
  {
    var store := new Store.Load(file);
    written := None;
    if date in store.events {
      store.DeleteEvent(date, id);
      written := Some(store.events);
    }
  }

  /** The events a lookup request returns for a date. */
  method GetEventsRequest(file: EventsFile, date: string) returns (r: seq<Event>)
    ensures file.Decoded? && date in file.events ==> r == file.events[date]
    ensures !(file.Decoded? && date in file.events) ==> r == []
  {
    var store := new Store.Load(file);
    r := store.GetEvents(date);
  }
}
