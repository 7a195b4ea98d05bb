/** The calendar's server actions: events stored in the events collection,
    listed a month at a time, and the employee list the event forms offer.
    Timestamps are civil date-times (`CivilTime.DateTime`). */
module EventActions {
  import opened Wrappers
  import opened JsString
  import opened CivilTime
  import opened Sorting
  import opened DocumentStore

  /** A document of the events collection. */
  datatype StoredEvent = StoredEvent(
    docId: string,
    title: string,
    category: string,
    start: DateTime,
    end: DateTime,
    userId: string,
    userName: string,
    accountId: string)

  function EventId(e: StoredEvent): string {
    e.docId
  }

  /** What the event forms send. A date that is an Invalid Date is None;
      `toISOString()` throws on it. */
  datatype EventParams = EventParams(
    title: string,
    category: string,
    userId: string,
    userName: string,
    start: Option<DateTime>,
    end: Option<DateTime>)

  predicate IsInstant(t: Option<DateTime>) {
    t.Some? && IsValid(t.value)
  }

  /** Every failure is reported with the action's own message. */
  const CreateFailed: string := "Error al crear el evento"
  const UpdateFailed: string := "Error al actualizar el evento"
  const DeleteFailed: string := "Error al eliminar el evento"
  const UserEventsFailed: string := "Error al obtener los eventos del usuario"
  const Deleted: string := "Evento eliminado"

  /** The six fields both create and update write. */
  function WithParams(e: StoredEvent, p: EventParams): StoredEvent
    requires IsInstant(p.start) && IsInstant(p.end)
  {
    e.(title := p.title, category := p.category, start := p.start.value, end := p.end.value,
       userId := p.userId, userName := p.userName)
  }

  /** The document `createEvent` writes: the creator's account is stamped on
      it and the other six fields are taken as given. The end is not checked
      against the start. */
  function NewEvent(user: Option<User>, p: EventParams, id: string): (r: Result<StoredEvent, string>)
    ensures r.Err? <==> user.None? || !IsInstant(p.start) || !IsInstant(p.end)
    ensures r.Err? ==> r.error == CreateFailed
    ensures r.Ok? ==>
              && r.value.docId == id && r.value.accountId == user.value.accountId
              && r.value.title == p.title && r.value.category == p.category
              && Some(r.value.start) == p.start && Some(r.value.end) == p.end
              && r.value.userId == p.userId && r.value.userName == p.userName
  {
    if user.None? || !IsInstant(p.start) || !IsInstant(p.end) then Err(CreateFailed)
    else Ok(StoredEvent(id, p.title, p.category, p.start.value, p.end.value, p.userId, p.userName,
                        user.value.accountId))
  }

  /** Creation accepts an end before the start. */
  lemma CreateAcceptsAnyOrder(user: User, p: EventParams, id: string)
    requires IsInstant(p.start) && IsInstant(p.end) && !Le(p.start.value, p.end.value)
    ensures NewEvent(Some(user), p, id).Ok?
  {
  }

  /** An update writes the six fields and nothing else. */
  lemma UpdateFrame(e: StoredEvent, p: EventParams)
    requires IsInstant(p.start) && IsInstant(p.end)
    ensures var u := WithParams(e, p);
      && u.docId == e.docId && u.accountId == e.accountId
      && WithParams(u, p) == u
      && u.(title := e.title, category := e.category, start := e.start, end := e.end,
            userId := e.userId, userName := e.userName) == e
  {
  }

  // ---------------------------------------------------------------------------
  // Month listings

  const MaxListed: nat := 100

  function StartLe(): (StoredEvent, StoredEvent) -> bool {
    (a: StoredEvent, b: StoredEvent) => Le(a.start, b.start)
  }

  lemma StartLePreorder()
    ensures IsTotalPreorder(StartLe())
  {
    forall a: StoredEvent, b: StoredEvent, c: StoredEvent
      ensures (Le(a.start, b.start) || Le(b.start, a.start))
      ensures (Le(a.start, b.start) && Le(b.start, c.start) ==> Le(a.start, c.start))
    {
      LeTotalOrder(a.start, b.start, c.start);
    }
  }

  function InWindow(year: int, month: int): StoredEvent -> bool {
    (e: StoredEvent) => InMonthWindow(year, month, e.start)
  }

  function MineInWindow(userId: string, year: int, month: int): StoredEvent -> bool {
    (e: StoredEvent) => e.userId == userId && InMonthWindow(year, month, e.start)
  }

  /** start between the first and the last instant of the month, start
      ascending, at most 100. */
  function Listing(docs: seq<StoredEvent>, eligible: StoredEvent -> bool): (r: seq<StoredEvent>)
    ensures |r| == if |Filter(docs, eligible)| <= MaxListed then |Filter(docs, eligible)| else MaxListed
  {
    Take(SortBy(Filter(docs, eligible), StartLe()), MaxListed)
  }

  /** `getEventsByMonth`: every event of the month, whatever its account. */
  function EventsByMonth(docs: seq<StoredEvent>, year: int, month: int): (r: seq<StoredEvent>)
    ensures |r| <= MaxListed
    ensures forall e :: e in r ==> e in docs && InMonthWindow(year, month, e.start)
  {
    ListingSound(docs, InWindow(year, month));
    Listing(docs, InWindow(year, month))
  }

  /** `getCurrentUserEventsByMonth`: the signed-in employee's events of the month. */
  function CurrentUserEventsByMonth(docs: seq<StoredEvent>, user: Option<User>, year: int, month: int)
    : (r: Result<seq<StoredEvent>, string>)
    ensures r.Err? <==> user.None?
    ensures r.Err? ==> r.error == UserEventsFailed
  {
    if user.None? then Err(UserEventsFailed)
    else Ok(Listing(docs, MineInWindow(user.value.id, year, month)))
  }

  /** A listing holds eligible documents only, start ascending, at most 100. */
  lemma ListingSound(docs: seq<StoredEvent>, eligible: StoredEvent -> bool)
    ensures var r := Listing(docs, eligible);
      && |r| <= MaxListed
      && (forall e :: e in r ==> e in docs && eligible(e))
      && SortedBy(r, StartLe())
  {
    var f := Filter(docs, eligible);
    var sorted := SortBy(f, StartLe());
    var r := Take(sorted, MaxListed);
    StartLePreorder();
    SortBySorted(f, StartLe());
    TakeSorted(sorted, MaxListed, StartLe());
    forall e | e in r ensures e in docs && eligible(e) {
      var i :| 0 <= i < |r| && r[i] == e;
      assert e == sorted[i];
      assert e in multiset(sorted);
    }
  }

  /** When more than 100 documents are eligible, the ones kept are the
      earliest: every listed event starts no later than any eligible event
      left out. */
  lemma ListingKeepsEarliest(docs: seq<StoredEvent>, eligible: StoredEvent -> bool)
    ensures forall e, x ::
              (e in Listing(docs, eligible) && x in Filter(docs, eligible) && x !in Listing(docs, eligible))
              ==> Le(e.start, x.start)
  {
    var f := Filter(docs, eligible);
    var sorted := SortBy(f, StartLe());
    var r := Listing(docs, eligible);
    StartLePreorder();
    SortBySorted(f, StartLe());
    forall e, x | e in r && x in f && x !in r ensures Le(e.start, x.start) {
      var i :| 0 <= i < |r| && r[i] == e;
      assert x in multiset(sorted);
      var j :| 0 <= j < |sorted| && sorted[j] == x;
      assert forall k :: 0 <= k < |r| ==> r[k] == sorted[k];
      assert j >= |r|;
      assert sorted[i] == e;
      assert StartLe()(sorted[i], sorted[j]);
    }
  }

  /** With at most 100 eligible documents, each one is listed once. */
  lemma ListingComplete(docs: seq<StoredEvent>, eligible: StoredEvent -> bool)
    requires |Filter(docs, eligible)| <= MaxListed
    ensures multiset(Listing(docs, eligible)) == multiset(Filter(docs, eligible))
  {
  }

  /** The admin listing: every event lies in the month window, whatever its
      account or employee. */
  lemma EventsByMonthSound(docs: seq<StoredEvent>, year: int, month: int)
    ensures var r := EventsByMonth(docs, year, month);
      && |r| <= MaxListed && SortedBy(r, StartLe())
      && forall e :: e in r ==> e in docs && InMonthWindow(year, month, e.start)
  {
    ListingSound(docs, InWindow(year, month));
  }

  /** The employee listing holds only the employee's own events of the month. */
  lemma CurrentUserEventsSound(docs: seq<StoredEvent>, user: User, year: int, month: int)
    ensures var r := CurrentUserEventsByMonth(docs, Some(user), year, month).value;
      && |r| <= MaxListed && SortedBy(r, StartLe())
      && forall e :: e in r ==> e in docs && e.userId == user.id && InMonthWindow(year, month, e.start)
  {
    ListingSound(docs, MineInWindow(user.id, year, month));
  }

  /** A listing by a stronger condition is part of one by a weaker, as long
      as the weaker one is not cut by the limit. */
  lemma ListingWithin(docs: seq<StoredEvent>, p: StoredEvent -> bool, q: StoredEvent -> bool)
    requires forall e :: p(e) ==> q(e)
    requires |Filter(docs, q)| <= MaxListed
    ensures multiset(Listing(docs, p)) <= multiset(Listing(docs, q))
  {
    FilterStronger(docs, p, q);
    ListingComplete(docs, q);
    ListingComplete(docs, p);
  }

  /** When the month has at most 100 events, the employee listing is part of
      the admin listing for the same month. */
  lemma CurrentUserEventsWithinAdmin(docs: seq<StoredEvent>, user: User, year: int, month: int)
    requires |Filter(docs, InWindow(year, month))| <= MaxListed
    ensures multiset(CurrentUserEventsByMonth(docs, Some(user), year, month).value)
            <= multiset(EventsByMonth(docs, year, month))
  {
    var mine, all := MineInWindow(user.id, year, month), InWindow(year, month);
    assert forall e :: mine(e) ==> all(e);
    ListingWithin(docs, mine, all);
  }

  // ---------------------------------------------------------------------------
  // Employees

  datatype Employee = Employee(id: string, name: string)

  function FullNameLe(): (User, User) -> bool {
    (a: User, b: User) => StrLe(a.fullName, b.fullName)
  }

  lemma FullNameLePreorder()
    ensures IsTotalPreorder(FullNameLe())
  {
    forall a: User, b: User, c: User
      ensures StrLe(a.fullName, b.fullName) || StrLe(b.fullName, a.fullName)
      ensures StrLe(a.fullName, b.fullName) && StrLe(b.fullName, c.fullName) ==> StrLe(a.fullName, c.fullName)
    {
      StrLeTotal(a.fullName, b.fullName);
      if StrLe(a.fullName, b.fullName) && StrLe(b.fullName, c.fullName) {
        StrLeTransitive(a.fullName, b.fullName, c.fullName);
      }
    }
  }

  function ToEmployee(u: User): Employee {
    Employee(u.id, u.fullName)
  }

  function ToEmployees(us: seq<User>): (r: seq<Employee>)
    ensures |r| == |us|
    ensures forall i :: 0 <= i < |us| ==> r[i] == ToEmployee(us[i])
  {
    if us == [] then [] else [ToEmployee(us[0])] + ToEmployees(us[1..])
  }

  /** `getEmployeeList`: users by full name, at most 100, as {id, name}. */
  function EmployeeList(users: seq<User>): (r: seq<Employee>)
    ensures |r| == if |users| <= MaxListed then |users| else MaxListed
  {
    ToEmployees(Take(SortBy(users, FullNameLe()), MaxListed))
  }

  /** The employee list is in full-name order, names users of the
      collection and holds at most 100 of them; when there are no more than
      100 users, every one of them is listed. */
  lemma EmployeeListSound(users: seq<User>)
    ensures var r := EmployeeList(users);
      && |r| <= MaxListed
      && (forall i, j :: 0 <= i < j < |r| ==> StrLe(r[i].name, r[j].name))
      && (forall e :: e in r ==> exists u :: u in users && e == Employee(u.id, u.fullName))
      && (|users| <= MaxListed ==> |r| == |users| && forall u :: u in users ==> ToEmployee(u) in r)
  {
    var sorted := SortBy(users, FullNameLe());
    var shown := Take(sorted, MaxListed);
    var r := EmployeeList(users);
    FullNameLePreorder();
    SortBySorted(users, FullNameLe());
    TakeSorted(sorted, MaxListed, FullNameLe());
    forall e | e in r ensures exists u :: u in users && e == Employee(u.id, u.fullName) {
      var i :| 0 <= i < |r| && r[i] == e;
      assert shown[i] == sorted[i];
      assert sorted[i] in multiset(users);
    }
    if |users| <= MaxListed {
      forall u | u in users ensures ToEmployee(u) in r {
        assert u in multiset(sorted);
        var i :| 0 <= i < |sorted| && sorted[i] == u;
        assert r[i] == ToEmployee(shown[i]);
      }
    }
  }

  // ---------------------------------------------------------------------------
  // The store

  class EventStore {
    var events: map<string, StoredEvent>
    /** Event ids in the order the collection lists them. */
    var order: seq<string>
    /** The users collection (`usersCollectionId`) in its listing order:
        listing it is all this store does with it. The task store keeps the
        same collection keyed by document id, since it looks users up. */
    var users: seq<User>

    ghost predicate Valid()
      reads this
    {
      && Indexed(events, order, EventId)
      && (forall id :: id in events ==> IsValid(events[id].start) && IsValid(events[id].end))
    }

    constructor (users: seq<User>)
      ensures Valid()
      ensures this.events == map[] && this.order == [] && this.users == users
    {
      this.events := map[];
      this.order := [];
      this.users := users;
    }

    function Documents(): seq<StoredEvent>
      reads this
      requires Valid()
    {
      Project(events, order)
    }

    function MonthEvents(year: int, month: int): (r: seq<StoredEvent>)
      reads this
      requires Valid()
      ensures |r| <= MaxListed
      ensures forall e :: e in r ==> InMonthWindow(year, month, e.start)
    {
      EventsByMonth(Documents(), year, month)
    }

    function Employees(): (r: seq<Employee>)
      reads this
      ensures |r| == if |users| <= MaxListed then |users| else MaxListed
    {
      EmployeeList(users)
    }

    /** `createEvent`. */
    method CreateEvent(user: Option<User>, p: EventParams, freshId: string) returns (r: Result<StoredEvent, string>)
      requires Valid()
      requires freshId !in events
      modifies this
      ensures Valid()
      ensures users == old(users)
      ensures r == NewEvent(user, p, freshId)
      ensures r.Err? ==> events == old(events) && order == old(order)
      ensures r.Ok? ==> events == old(events)[freshId := r.value] && order == old(order) + [freshId]
    {
      r := NewEvent(user, p, freshId);
      if r.Ok? {
        IndexedInsert(events, order, EventId, r.value);
        events := events[freshId := r.value];
        order := order + [freshId];
      }
    }

    /** `updateEvent`: no sign-in check; a missing event or an Invalid Date
        fails. */
    method UpdateEvent(eventId: string, p: EventParams) returns (r: Result<StoredEvent, string>)
      requires Valid()
      modifies this
      ensures Valid()
      ensures users == old(users) && order == old(order)
      ensures r.Err? <==> eventId !in old(events) || !IsInstant(p.start) || !IsInstant(p.end)
      ensures r.Err? ==> r.error == UpdateFailed && events == old(events)
      ensures r.Ok? ==> r.value == WithParams(old(events)[eventId], p) && events == old(events)[eventId := r.value]
    {
      if eventId !in events || !IsInstant(p.start) || !IsInstant(p.end) {
        return Err(UpdateFailed);
      }
      var updated := WithParams(events[eventId], p);
      IndexedUpdate(events, order, EventId, updated);
      events := events[eventId := updated];
      r := Ok(updated);
    }

    /** `deleteEvent`: removes only that event. */
    method DeleteEvent(eventId: string) returns (r: Result<string, string>)
      requires Valid()
      modifies this
      ensures Valid()
      ensures users == old(users)
      ensures r.Err? <==> eventId !in old(events)
      ensures r.Err? ==> r.error == DeleteFailed && events == old(events) && order == old(order)
      ensures r.Ok? ==> r.value == Deleted && events == old(events) - {eventId} && order == Remove(old(order), eventId)
    {
      if eventId !in events {
        return Err(DeleteFailed);
      }
      IndexedRemove(events, order, EventId, eventId);
      events := events - {eventId};
      order := Remove(order, eventId);
      r := Ok(Deleted);
    }
  }
}
