/** The month grid: leading blank cells up to the weekday of the first, then
    one cell per day of the month, each showing at most two of the events
    that start on that day of the month. */
module MonthCalendar {
  import opened Wrappers
  import opened CivilTime
  import opened Sorting
  import opened CalendarEvent

  /** `firstDay.getDay()` for `new Date(year, month, 1)`: 0 = Sunday, the
      first column of the Dom..Sáb header. */
  function StartingDayOfWeek(year: int, month: int): (w: int)
    ensures 0 <= w < 7
  {
    var (y, m) := NormalizeMonth(year, month);
    Weekday(y, m, 1)
  }

  /** `new Date(year, month + 1, 0).getDate()`. */
  function DaysShown(year: int, month: int): (n: int)
    ensures 28 <= n <= 31
  {
    var (y, m) := NormalizeMonth(year, month);
    DaysInMonth(y, m)
  }

  /** The last day shown is the day before the first of the next month, and
      February has 29 days exactly in leap years. */
  lemma DaysShownIsDayZeroOfNextMonth(year: int, month: int)
    ensures var (y, m) := NormalizeMonth(year, month);
            var (ny, nm) := NormalizeMonth(year, month + 1);
            NextDay(y, m, DaysShown(year, month)) == (ny, nm, 1)
            && (m == 1 ==> (DaysShown(year, month) == 29 <==> IsLeapYear(y)))
  {
  }

  /** `calendarDays`: None for a blank cell, Some(d) for day d. */
  function CalendarDays(year: int, month: int): (cells: seq<Option<int>>)
    ensures |cells| == StartingDayOfWeek(year, month) + DaysShown(year, month)
  {
    var emptyDays := seq(StartingDayOfWeek(year, month), _ => None);
    var days := seq(DaysShown(year, month), i => Some(i + 1));
    emptyDays + days
  }

  /** The first cells are blank and the rest are the days 1..n in order. */
  lemma CalendarDaysLayout(year: int, month: int)
    ensures var cells, w := CalendarDays(year, month), StartingDayOfWeek(year, month);
            && (forall i :: 0 <= i < w ==> cells[i].None?)
            && (forall i :: w <= i < |cells| ==> cells[i] == Some(i - w + 1))
            && (forall i, j :: w <= i < j < |cells| ==> cells[i].value < cells[j].value)
  {
  }

  lemma WeekdayShift(y: int, m: int, d: int)
    requires 0 <= m < 12 && d >= 1
    ensures (Weekday(y, m, 1) + d - 1) % 7 == Weekday(y, m, d)
  {
    var x := DaysBeforeYear(y) + DaysBeforeMonth(y, m) + 4;
    assert Weekday(y, m, 1) == x % 7;
    assert Weekday(y, m, d) == (x + (d - 1)) % 7;
    ModShift(x, d - 1);
  }

  /** Every day sits under its own weekday's header: in a grid of seven
      columns, the cell of day d is in column `getDay()` of that date. */
  lemma DayColumnIsWeekday(year: int, month: int, d: int)
    requires 1 <= d <= DaysShown(year, month)
    ensures var (y, m) := NormalizeMonth(year, month);
            var i := StartingDayOfWeek(year, month) + d - 1;
            && 0 <= i < |CalendarDays(year, month)|
            && CalendarDays(year, month)[i] == Some(d)
            && i % 7 == Weekday(y, m, d)
  {
    var (y, m) := NormalizeMonth(year, month);
    WeekdayShift(y, m, d);
    CalendarDaysLayout(year, month);
  }

  // ---------------------------------------------------------------------------
  // Events in a cell

  function OnDay(day: int): Event -> bool {
    (e: Event) => e.start.day == day
  }

  /** `getEventsForDay`: by day of the month only. */
  function EventsForDay(events: seq<Event>, day: int): (r: seq<Event>)
    ensures |r| <= |events|
    ensures forall e :: e in r ==> e in events && e.start.day == day
  {
    Filter(events, OnDay(day))
  }

  /** The events of day d are those starting on a day d of any month or year,
      in the order given. */
  lemma EventsForDaySound(events: seq<Event>, day: int)
    ensures forall e :: e in EventsForDay(events, day) <==> e in events && e.start.day == day
    ensures forall a, b :: events == a + b ==> EventsForDay(events, day) == EventsForDay(a, day) + EventsForDay(b, day)
  {
    forall a, b | events == a + b ensures EventsForDay(events, day) == EventsForDay(a, day) + EventsForDay(b, day) {
      FilterAppend(a, b, OnDay(day));
    }
  }

  /** The events of a cell: none for a blank one. */
  function CellEvents(events: seq<Event>, cell: Option<int>): (r: seq<Event>)
    ensures cell.None? ==> r == []
    ensures forall e :: e in r ==> e in events && cell == Some(e.start.day)
  {
    match cell
    case None => []
    case Some(d) => EventsForDay(events, d)
  }

  /** An event that starts in the month shown appears in the cell of its day. */
  lemma EventHasItsCell(events: seq<Event>, year: int, month: int, e: Event)
    requires e in events && IsValid(e.start)
    requires (e.start.year, e.start.month) == NormalizeMonth(year, month)
    ensures var i := StartingDayOfWeek(year, month) + e.start.day - 1;
            && 0 <= i < |CalendarDays(year, month)|
            && CalendarDays(year, month)[i] == Some(e.start.day)
            && e in CellEvents(events, CalendarDays(year, month)[i])
  {
    CalendarDaysLayout(year, month);
  }

  /** `dayEvents.slice(0, 2)`. */
  function Shown(dayEvents: seq<Event>): (r: seq<Event>)
    ensures |r| == if |dayEvents| <= 2 then |dayEvents| else 2
    ensures r == dayEvents[..|r|]
  {
    Take(dayEvents, 2)
  }

  /** The "+k más" line: present, with k = length − 2, beyond two events. */
  function Overflow(dayEvents: seq<Event>): (r: Option<int>)
    ensures r.Some? <==> |dayEvents| > 2
    ensures r.Some? ==> |Shown(dayEvents)| + r.value == |dayEvents|
  {
    if |dayEvents| > 2 then Some(|dayEvents| - 2) else None
  }

  /** The shown events and the overflow count account for every event of the
      day, each once: the first two are shown, the rest are counted. */
  lemma ShownAndOverflow(dayEvents: seq<Event>)
    ensures |Shown(dayEvents)| <= 2
    ensures Shown(dayEvents) == dayEvents[..|Shown(dayEvents)|]
    ensures Overflow(dayEvents).Some? <==> |dayEvents| > 2
    ensures Overflow(dayEvents).Some? ==> Overflow(dayEvents).value >= 1
    ensures |Shown(dayEvents)| + (if Overflow(dayEvents).Some? then Overflow(dayEvents).value else 0) == |dayEvents|
  {
  }
}
