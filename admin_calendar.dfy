/** The administrator's calendar: the events of the month on view, kept up to
    date by the create, edit and delete handlers, and the month navigation. */
module AdminCalendar {
  import opened Wrappers
  import opened JsString
  import opened CivilTime
  import opened Sorting
  import opened CalendarEvent
  import EventActions

  /** One document of the listing as the calendar holds it: `id` is `$id`. */
  function ToEvent(d: EventActions.StoredEvent): Event {
    Event(d.docId, d.title, d.start, d.end, d.category, d.userId, d.userName, d.accountId)
  }

  function ToStored(e: Event): EventActions.StoredEvent {
    EventActions.StoredEvent(e.id, e.title, e.category, e.start, e.end, e.userId, e.userName, e.accountId)
  }

  /** `processApiEvents`: one event per document, in the same order. */
  function ProcessApiEvents(apiEvents: seq<EventActions.StoredEvent>): (r: seq<Event>)
    ensures |r| == |apiEvents|
    ensures forall i :: 0 <= i < |r| ==> r[i].id == apiEvents[i].docId && ToStored(r[i]) == apiEvents[i]
  {
    if apiEvents == [] then []
    else [ToEvent(apiEvents[0])] + ProcessApiEvents(apiEvents[1..])
  }

  /** The conversion loses nothing: each event converts back to its document. */
  lemma ToEventRoundTrip(d: EventActions.StoredEvent, e: Event)
    ensures ToStored(ToEvent(d)) == d
    ensures ToEvent(ToStored(e)) == e
  {
  }

  /** Processing keeps the start order of a listing. */
  lemma ProcessApiEventsSorted(apiEvents: seq<EventActions.StoredEvent>)
    requires SortedBy(apiEvents, EventActions.StartLe())
    ensures SortedBy(ProcessApiEvents(apiEvents), EventLe())
  {
  }

  // ---------------------------------------------------------------------------
  // List updates

  /** The add guard as written: the new event's month against the month on
      view, whatever the years. */
  predicate AddGuardAsWritten(e: Event, viewYear: int, viewMonth: int) {
    e.start.month == viewMonth
  }

  /** The add guard as intended: the new event lies in the month on view. */
  predicate AddGuard(e: Event, viewYear: int, viewMonth: int) {
    e.start.year == viewYear && e.start.month == viewMonth
  }

  /** An event of November 2026 created while November 2025 is on view passes
      the written guard, though the month's listing would never hold it. */
  lemma AddGuardAsWrittenAdmitsOtherYear()
    ensures var e := Event("e1", "Visita", DateTime(2026, 10, 5, 9, 0, 0), DateTime(2026, 10, 5, 10, 0, 0),
                           "Inspección", "u1", "Ana", "a1");
            AddGuardAsWritten(e, 2025, 10) && !InMonthWindow(2025, 10, e.start)
  {
  }

  /** The intended guard admits a new event exactly when the listing of the
      month on view would hold it. */
  lemma AddGuardIsMonthWindow(e: Event, viewYear: int, viewMonth: int)
    requires IsValid(e.start) && 0 <= viewMonth < 12 && !(0 <= viewYear <= 99)
    ensures AddGuard(e, viewYear, viewMonth) <==> InMonthWindow(viewYear, viewMonth, e.start)
  {
    InMonthWindowIff(viewYear, viewMonth, e.start);
  }

  /** `[...prev, newEvent].sort(byStart)`. */
  function AddEvent(events: seq<Event>, e: Event): (r: seq<Event>)
    ensures |r| == |events| + 1
    ensures multiset(r) == multiset(events) + multiset{e}
  {
    SortBy(events + [e], EventLe())
  }

  /** Adding keeps every event, adds the new one once, sorts by start, and on
      a sorted list is an insertion that moves no other event. */
  lemma AddEventSound(events: seq<Event>, e: Event)
    ensures multiset(AddEvent(events, e)) == multiset(events) + multiset{e}
    ensures SortedBy(AddEvent(events, e), EventLe())
    ensures SortedBy(events, EventLe()) ==> AddEvent(events, e) == Insert(e, events, EventLe())
  {
    EventLePreorder();
    SortBySorted(events + [e], EventLe());
    if SortedBy(events, EventLe()) {
      SortAfterAppend(events, e, EventLe());
    }
  }

  /** `prev.map((e) => (e.id === updated.id ? updated : e))`. */
  function ReplaceById(events: seq<Event>, updated: Event): (r: seq<Event>)
    ensures |r| == |events|
    ensures forall i :: 0 <= i < |r| && events[i].id == updated.id ==> r[i] == updated
    ensures forall i :: 0 <= i < |r| && events[i].id != updated.id ==> r[i] == events[i]
  {
    if events == [] then []
    else [if events[0].id == updated.id then updated else events[0]] + ReplaceById(events[1..], updated)
  }

  /** Replacing twice is replacing once, and a list without the id stays as
      it is. */
  lemma ReplaceByIdIdempotent(events: seq<Event>, updated: Event)
    ensures ReplaceById(ReplaceById(events, updated), updated) == ReplaceById(events, updated)
    ensures (forall i :: 0 <= i < |events| ==> events[i].id != updated.id) ==> ReplaceById(events, updated) == events
  {
  }

  function OtherEvent(id: string): Event -> bool {
    (e: Event) => e.id != id
  }

  /** `prev.filter((e) => e.id !== eventId)`. */
  function RemoveById(events: seq<Event>, id: string): (r: seq<Event>)
    ensures |r| <= |events|
    ensures forall x :: x in r ==> x in events && x.id != id
  {
    Filter(events, OtherEvent(id))
  }

  /** Delete drops the events with that id and keeps the others in order, and
      keeps a sorted list sorted. */
  lemma RemoveByIdSound(events: seq<Event>, id: string)
    ensures forall e :: e in RemoveById(events, id) <==> e in events && e.id != id
    ensures forall a, b :: events == a + b ==> RemoveById(events, id) == RemoveById(a, id) + RemoveById(b, id)
    ensures SortedBy(events, EventLe()) ==> SortedBy(RemoveById(events, id), EventLe())
  {
    forall a, b | events == a + b ensures RemoveById(events, id) == RemoveById(a, id) + RemoveById(b, id) {
      FilterAppend(a, b, OtherEvent(id));
    }
    if SortedBy(events, EventLe()) {
      FilterSorted(events, OtherEvent(id));
    }
  }

  lemma {:induction false} FilterSorted(s: seq<Event>, p: Event -> bool)
    requires SortedBy(s, EventLe())
    ensures SortedBy(Filter(s, p), EventLe())
  {
    if s != [] {
      FilterSorted(s[1..], p);
      var t := Filter(s[1..], p);
      forall j | 0 <= j < |t| ensures Le(s[0].start, t[j].start) {
        assert t[j] in s[1..];
      }
    }
  }

  // ---------------------------------------------------------------------------
  // Month navigation

  /** `new Date(year, month - 1)`: one month back from the year the constructor
      reads `year` as. */
  function PreviousMonth(year: int, month: int): (r: (int, int))
    ensures 0 <= r.1 < 12
    ensures 12 * r.0 + r.1 == 12 * ConstructorYear(year) + month - 1
  {
    NormalizeMonth(year, month - 1)
  }

  /** `new Date(year, month + 1)`: one month forward from the year the
      constructor reads `year` as. */
  function NextMonth(year: int, month: int): (r: (int, int))
    ensures 0 <= r.1 < 12
    ensures 12 * r.0 + r.1 == 12 * ConstructorYear(year) + month + 1
  {
    NormalizeMonth(year, month + 1)
  }

  /** Navigation moves one calendar month, wrapping December and January over
      a year change, and Next undoes Previous and vice versa, for years that
      `new Date` takes as they are. */
  lemma NavigationRoundTrip(year: int, month: int)
    requires 0 <= month < 12 && !(-1 <= year <= 100)
    ensures 12 * PreviousMonth(year, month).0 + PreviousMonth(year, month).1 == 12 * year + month - 1
    ensures 12 * NextMonth(year, month).0 + NextMonth(year, month).1 == 12 * year + month + 1
    ensures month == 0 ==> PreviousMonth(year, month) == (year - 1, 11)
    ensures month == 11 ==> NextMonth(year, month) == (year + 1, 0)
    ensures var (py, pm) := PreviousMonth(year, month); NextMonth(py, pm) == (year, month)
    ensures var (ny, nm) := NextMonth(year, month); PreviousMonth(ny, nm) == (year, month)
  {
    assert ConstructorYear(year) == year;
    if month == 0 {
      assert PreviousMonth(year, month) == (year - 1, 11);
      assert ConstructorYear(year - 1) == year - 1;
      assert NextMonth(year - 1, 11) == (year, 0);
    } else {
      assert PreviousMonth(year, month) == (year, month - 1);
      assert NextMonth(year, month - 1) == (year, month);
    }
    if month == 11 {
      assert NextMonth(year, month) == (year + 1, 0);
      assert ConstructorYear(year + 1) == year + 1;
      assert PreviousMonth(year + 1, 0) == (year, 11);
    } else {
      assert NextMonth(year, month) == (year, month + 1);
      assert PreviousMonth(year, month + 1) == (year, month);
    }
  }

  /** From January of the year 100 one step back lands in December 99, which
      `new Date` reads as 1999 on the next step. */
  lemma NavigationTwoDigitYears()
    ensures PreviousMonth(100, 0) == (99, 11)
    ensures NextMonth(99, 11) == (2000, 0)
  {
  }

  // ---------------------------------------------------------------------------
  // Display

  const DefaultColor: string := "#6b7280"

  /** `getCategoryColor`. */
  function CategoryColor(category: string): (c: string)
    ensures c == DefaultColor <==> category !in {"Inspección", "Auditoría", "Capacitación"}
  {
    if category == "Inspección" then "#22c55e"
    else if category == "Auditoría" then "#f59e0b"
    else if category == "Capacitación" then "#3b82f6"
    else DefaultColor
  }

  /** The three known categories get three different colours. */
  lemma CategoryColorsDistinct(a: string, b: string)
    requires a in {"Inspección", "Auditoría", "Capacitación"} && b in {"Inspección", "Auditoría", "Capacitación"}
    ensures CategoryColor(a) == CategoryColor(b) <==> a == b
  {
  }

  function PluralSuffix(n: nat): string {
    if n != 1 then "s" else ""
  }

  /** "n evento(s) programado(s)". */
  function CountLabel(n: nat): (text: string)
    ensures |NatToString(n)| <= |text| && text[..|NatToString(n)|] == NatToString(n)
  {
    NatToString(n) + " evento" + PluralSuffix(n) + " programado" + PluralSuffix(n)
  }

  /** The label is plural exactly when the count is not one: both words end
      in "s" together. */
  lemma CountLabelPlural(n: nat)
    ensures var text := CountLabel(n); var k := |NatToString(n)|;
            && text[..k] == NatToString(n)
            && (n != 1 <==> text[|text| - 1] == 's')
            && (n != 1 <==> text[k..k + 8] == " eventos")
            && (n == 1 ==> text == "1 evento programado")
  {
    LabelParts(NatToString(n), PluralSuffix(n));
    if n == 1 {
      assert NatToString(1) == "1" && PluralSuffix(1) == "";
      assert CountLabel(1) == "1" + " evento" + "" + " programado" + "";
    }
  }

  lemma LabelParts(a: string, suffix: string)
    requires suffix == "s" || suffix == ""
    ensures var text := a + " evento" + suffix + " programado" + suffix;
            && text[..|a|] == a
            && (suffix == "s" <==> text[|text| - 1] == 's')
            && (suffix == "s" <==> text[|a|..|a| + 8] == " eventos")
  {
    var rest := " evento" + suffix + " programado" + suffix;
    var text := a + rest;
    assert text[..|a|] == a;
    assert text[|a|..|a| + 8] == rest[..8];
    assert text[|text| - 1] == rest[|rest| - 1];
    if suffix == "" {
      assert rest == " evento programado";
      assert rest[..8][7] == ' ' && " eventos"[7] == 's';
    } else {
      assert rest == " eventos programados";
    }
  }

  // ---------------------------------------------------------------------------

  /** The calendar's state: the month on view and its events. The view opens
      on November 2025. */
  class AdminCalendarView {
    var viewYear: int
    var viewMonth: int
    var monthEvents: seq<Event>

    ghost predicate Valid()
      reads this
    {
      0 <= viewMonth < 12
    }

    constructor ()
      ensures Valid()
      ensures viewYear == 2025 && viewMonth == 10 && monthEvents == []
    {
      viewYear := 2025;
      viewMonth := 10;
      monthEvents := [];
    }

    /** `fetchEvents`, given the stored events: the month's listing. */
    method LoadEvents(docs: seq<EventActions.StoredEvent>)
      requires Valid()
      modifies this
      ensures Valid() && viewYear == old(viewYear) && viewMonth == old(viewMonth)
      ensures monthEvents == ProcessApiEvents(EventActions.EventsByMonth(docs, viewYear, viewMonth))
      ensures SortedBy(monthEvents, EventLe())
    {
      EventActions.EventsByMonthSound(docs, viewYear, viewMonth);
      ProcessApiEventsSorted(EventActions.EventsByMonth(docs, viewYear, viewMonth));
      monthEvents := ProcessApiEvents(EventActions.EventsByMonth(docs, viewYear, viewMonth));
    }

    /** `handleAddEvent`, given what `createEvent` returned (None when it
        threw). The guard is the month-only comparison of the code, so an
        event of the same month in another year is added too. */
    method HandleAddEvent(created: Option<EventActions.StoredEvent>)
      requires Valid()
      modifies this
      ensures Valid() && viewYear == old(viewYear) && viewMonth == old(viewMonth)
      ensures monthEvents ==
                if created.Some? && AddGuardAsWritten(ToEvent(created.value), viewYear, viewMonth)
                then AddEvent(old(monthEvents), ToEvent(created.value))
                else old(monthEvents)
    {
      if created.Some? {
        var newEvent := ToEvent(created.value);
        if AddGuardAsWritten(newEvent, viewYear, viewMonth) {
          monthEvents := AddEvent(monthEvents, newEvent);
        }
      }
    }

    /** `handleAddEvent` with the guard it evidently intends: the event is
        added exactly when it starts in the month on view. */
    method HandleAddEventIntended(created: Option<EventActions.StoredEvent>)
      requires Valid()
      modifies this
      ensures Valid() && viewYear == old(viewYear) && viewMonth == old(viewMonth)
      ensures monthEvents ==
                if created.Some? && AddGuard(ToEvent(created.value), viewYear, viewMonth)
                then AddEvent(old(monthEvents), ToEvent(created.value))
                else old(monthEvents)
    {
      if created.Some? {
        var newEvent := ToEvent(created.value);
        if AddGuard(newEvent, viewYear, viewMonth) {
          monthEvents := AddEvent(monthEvents, newEvent);
        }
      }
    }

    /** `handleEditEvent`, given what `updateEvent` returned (None when it
        threw). The list is not re-sorted. */
    method HandleEditEvent(updated: Option<EventActions.StoredEvent>)
      requires Valid()
      modifies this
      ensures Valid() && viewYear == old(viewYear) && viewMonth == old(viewMonth)
      ensures monthEvents == if updated.Some? then ReplaceById(old(monthEvents), ToEvent(updated.value)) else old(monthEvents)
    {
      if updated.Some? {
        monthEvents := ReplaceById(monthEvents, ToEvent(updated.value));
      }
    }

    /** `handleDeleteEvent`; `deleted` is whether `deleteEvent` succeeded. */
    method HandleDeleteEvent(eventId: string, deleted: bool)
      requires Valid()
      modifies this
      ensures Valid() && viewYear == old(viewYear) && viewMonth == old(viewMonth)
      ensures monthEvents == if deleted then RemoveById(old(monthEvents), eventId) else old(monthEvents)
    {
      if deleted {
        monthEvents := RemoveById(monthEvents, eventId);
      }
    }

    /** `handlePreviousMonth`. The list is kept; reloading it for the new
        month is `LoadEvents`' job. */
    method HandlePreviousMonth()
      requires Valid()
      modifies this
      ensures Valid() && monthEvents == old(monthEvents)
      ensures (viewYear, viewMonth) == PreviousMonth(old(viewYear), old(viewMonth))
    {
      var (y, m) := PreviousMonth(viewYear, viewMonth);
      viewYear, viewMonth := y, m;
    }

    /** `handleNextMonth`. The list is kept, as for `HandlePreviousMonth`. */
    method HandleNextMonth()
      requires Valid()
      modifies this
      ensures Valid() && monthEvents == old(monthEvents)
      ensures (viewYear, viewMonth) == NextMonth(old(viewYear), old(viewMonth))
    {
      var (y, m) := NextMonth(viewYear, viewMonth);
      viewYear, viewMonth := y, m;
    }

    function Label(): string
      reads this
    {
      CountLabel(|monthEvents|)
    }
  }
}
