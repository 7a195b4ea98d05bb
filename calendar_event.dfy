/** The calendar's client-side event (`Event`): a stored event with its
    document id under `id` and its timestamps as dates. */
module CalendarEvent {
  import opened CivilTime
  import opened Sorting

  datatype Event = Event(
    id: string,
    title: string,
    start: DateTime,
    end: DateTime,
    category: string,
    userId: string,
    userName: string,
    accountId: string)

  /** `(a, b) => a.start.getTime() - b.start.getTime()` as "a may come first". */
  function EventLe(): (Event, Event) -> bool {
    (a: Event, b: Event) => Le(a.start, b.start)
  }

  lemma EventLePreorder()
    ensures IsTotalPreorder(EventLe())
  {
    forall a: Event, b: Event, c: Event
      ensures (Le(a.start, b.start) || Le(b.start, a.start))
      ensures (Le(a.start, b.start) && Le(b.start, c.start) ==> Le(a.start, c.start))
    {
      LeTotalOrder(a.start, b.start, c.start);
    }
  }
}
