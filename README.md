# Calendar: month navigation and event store

A Dafny model of the logic inside the handlers of a single-file Flask calendar
(`calender.py`). Two pieces are modelled.

- **Month navigation.** The main view is asked for a `(year, month)` pair. It
  normalises the pair with a single roll-over step: a month above 12 becomes
  January of the next year, and a month below 1 becomes December of the
  previous year. It then computes the previous and the next month for its
  navigation links. Module `MonthNavigation` gives these as pure functions over
  `int`. They are stated against `MonthIndex`, which numbers all months on one
  line, twelve per year.
- **Event store.** A request that reads or changes the store loads it whole
  from the events file. An add request without a date or a title does not
  load it at all.
  The store maps a date string to an ordered list of events. Each event has a
  title, a time, a description and an id. The add request appends one event,
  the delete request removes every event with a given id, and the lookup
  request returns a date's list. Module `EventStore` states each operation as
  a pure function on the map (`AddedTo`, `DeletedFrom`, `EventsOn`, and the
  filter `WithoutId`). The class `Store` holds the loaded map and updates it
  in place, as the handlers update the loaded dictionary. Its methods are
  proved against those functions. `AddEventRequest` and `DeleteEventRequest`
  say what an add or delete request writes back, and `GetEventsRequest` what
  a lookup request returns.

The event id is the float timestamp taken when the event is added. Here it is
a caller-supplied `real`, compared only for equality. Form fields that may be
absent are `Option<string>`. A field counts as given when it is present and
non-empty, which is what Python's truthiness test on a string checks.

Normalisation takes only one step, so month 25 becomes January of the next
year, not of the year after (`NormalizeIsSingleStep`). The view's own links
only ask for months 1 to 12, because the previous and next months are wrapped
into that range before they are linked (`LinksNeedNoNormalization`). A month
out of range reaches the normalisation only from an address typed by hand.
The single step agrees with whole-year roll-over exactly when the request is
at most one month out of range, that is for months 0 to 13
(`NormalizeAgreesNearRange`).

## Model

| member | source | states |
|---|---|---|
| `MonthNavigation.Normalize` | calender.py:59-65 | the month is in 1..12 afterwards; a month above 12 gives (year+1, 1), one below 1 gives (year-1, 12), and a month in 1..12 is left unchanged with its year (both directions) |
| `MonthNavigation.Prev` | calender.py:75-79 | for a month in 1..12 the previous month is in 1..12 and sits exactly one place earlier on the line of months |
| `MonthNavigation.Next` | calender.py:81-85 | for a month in 1..12 the next month is in 1..12 and sits exactly one place later on the line of months |
| `MonthNavigation.Navigate` | calender.py:59-85 | the view shows the normalised month, and its previous and next links are valid months one place before and after it |
| `MonthNavigation.PrevIsPredecessor` | calender.py:75-79 | the previous link equals the month read back from the position one earlier |
| `MonthNavigation.NextIsSuccessor` | calender.py:81-85 | the next link equals the month read back from the position one later |
| `MonthNavigation.NextOfPrev` | calender.py:75-85 | for a month in 1..12, next of previous is the original (year, month) |
| `MonthNavigation.PrevOfNext` | calender.py:75-85 | for a month in 1..12, previous of next is the original (year, month) |
| `MonthNavigation.YearChangesOnlyAtEnds` | calender.py:75-85 | "previous" changes the year exactly in January, to (year-1, 12); "next" changes it exactly in December, to (year+1, 1) |
| `MonthNavigation.NormalizeAgreesNearRange` | calender.py:60-65 | the single roll-over step equals whole-year roll-over if and only if the month is in 0..13, that is at most one month out of range |
| `MonthNavigation.NormalizeIsSingleStep` | calender.py:60-62 | month 25 becomes (year+1, 1), whereas whole-year roll-over would give (year+2, 1) |
| `MonthNavigation.LinksNeedNoNormalization` | calender.py:60-85 | following a previous or next link shows that month unchanged, and its own links lead back to the month it came from |
| `EventStore.Filled` | calender.py:127 | a form field counts as given exactly when it is present and not the empty string |
| `EventStore.LoadEvents` | calender.py:36-44 | a decoded file gives its map; every date loaded comes from a decoded file, so a missing or undecodable file gives the empty store |
| `EventStore.EventsOn` | calender.py:165 | a non-empty lookup is the date's stored list; in a store without empty lists the lookup is empty exactly when the date is absent |
| `EventStore.WithoutId` | calender.py:152 | the filtered list is no longer than the original and holds no event with the id |
| `EventStore.WithoutIdConcat` | calender.py:152 | filtering a concatenation filters each part and keeps the parts in order, so the original order is preserved |
| `EventStore.WithoutIdCount` | calender.py:152 | every event with the id is removed, not only the first, and every other event keeps its multiplicity |
| `EventStore.WithoutIdNoMatch` | calender.py:152 | a list holding no event with the id is left as it is |
| `EventStore.WithoutIdIdempotent` | calender.py:152 | filtering twice by the same id is the same as filtering once |
| `EventStore.AddedTo` | calender.py:130-138 | the date's list afterwards is the old list, or the empty list when the date was absent, with the event appended; the keys gain only the date; every other date keeps its list |
| `EventStore.AddedToKeepsNoEmptyBuckets` | calender.py:130-133 | if no date mapped to an empty list before an add, none does afterwards |
| `EventStore.AddedToKeepsIdsDistinct` | calender.py:133-138 | the ids on the date stay distinct when the new id is not already among them |
| `EventStore.DeletedFrom` | calender.py:151-154 | an absent date leaves the store unchanged; a present date gets its filtered list, or is removed when the filter leaves nothing; every other date keeps its list |
| `EventStore.DeletedFromRemovesExactlyId` | calender.py:151-152 | afterwards no event on the date has the id, and every other event on it keeps its multiplicity |
| `EventStore.DeletedFromKeepsNoEmptyBuckets` | calender.py:151-154 | if no date mapped to an empty list before a delete, none does afterwards |
| `EventStore.DeletedFromIdempotent` | calender.py:151-154 | deleting the same id from the same date twice is the same as deleting it once |
| `EventStore.DeleteUndoesAdd` | calender.py:127-155 | in a store without empty lists, deleting an event just added under an id not yet on its date gives back the original store |
| `EventStore.MeetingScenario` | calender.py:127-155 | adding "Meeting" to an empty store yields one event on its date; deleting it leaves no events and removes the date key |
| `EventStore.Store.Load` | calender.py:36-44 | the loaded store is `LoadEvents` of the file: its map when decoded, the empty store otherwise |
| `EventStore.Store.AddEvent` | calender.py:122-138 | with date and title given, the store becomes the old store with the event appended to the date's list; otherwise it is unchanged; no empty list appears |
| `EventStore.Store.DeleteEvent` | calender.py:151-154 | the store becomes the old store with the date's list filtered, and the date dropped when left empty; no empty list appears |
| `EventStore.Store.GetEvents` | calender.py:165 | returns `EventsOn` of the store: the stored list when the date is present and the empty list otherwise, without changing the store |
| `EventStore.AddEventRequest` | calender.py:120-140 | the file is rewritten only when date and title are given, and then with the loaded store plus the new event |
| `EventStore.DeleteEventRequest` | calender.py:147-155 | the file is rewritten only when the date is in the loaded store, and then with the event removed |
| `EventStore.GetEventsRequest` | calender.py:162-165 | returns the date's list from the decoded file, or the empty list when the file is missing, undecodable or lacks the date |

## Left out

- Flask routing, request parsing, templates, redirects and JSON responses are left out. This includes parsing `year`/`month` as integers with a fallback to today's date. The model starts from the integers.
- The contents of the events file and its JSON encoding are abstracted to `EventsFile`: missing, undecodable, or decoded to a map. A decoded value that is not a date-to-list map, and read or write errors other than a decode error, are not modelled.
- The order of the dates in the store is not modelled. Python dictionaries keep insertion order, so the file lists a newly added date last; `map` has no order. Nothing in the handlers depends on it.
- Saving is modelled as the value a request writes back (`AddEventRequest`, `DeleteEventRequest`). Writing the file itself is I/O.
- `calendar.monthcalendar` and `calendar.month_name` are left out, because they are standard-library calls. The month grid is therefore not modelled, and neither is the error page shown when those calls reject a year.
- The event id comes from the clock (`datetime.now().timestamp()`). Here it is a parameter, so the model cannot say that two adds get different ids. `AddedToKeepsIdsDistinct` and `DeleteUndoesAdd` assume a fresh id instead.
- `datetime.strptime` on the date before each redirect is left out. It raises when the date is absent or malformed, and that crash happens after the store was or was not saved.
- The diagnostic pages, the startup prints and creating directories at start-up are left out.
- Two requests can race to load, modify and overwrite the file. There is no locking, so there is nothing sequential to verify about it.
