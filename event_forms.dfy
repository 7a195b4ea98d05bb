/** The create and edit event dialogs: the form fields, the guard chain run on
    submit and the event each dialog hands on. Date and time inputs hold
    "YYYY-MM-DD" and "HH:MM"; both instants are read on the chosen date. */
module EventForms {
  import opened Wrappers
  import opened JsString
  import opened CivilTime
  import opened CalendarEvent
  import EventActions

  /** The dialog's fields, as its state holds them. */
  datatype EventForm = EventForm(
    title: string,
    category: string,
    employeeId: string,
    startDate: string,
    startTime: string,
    endTime: string)

  /** The first failing check; each has its own message. */
  datatype FormError = RequiredFields | InvalidEmployee | EndNotAfterStart

  function Message(e: FormError): string {
    match e
    case RequiredFields => "Por favor completa todos los campos requeridos."
    case InvalidEmployee => "Empleado seleccionado no es válido."
    case EndNotAfterStart => "La hora de fin debe ser posterior a la hora de inicio."
  }

  const Categories: seq<string> := ["Inspección", "Auditoría", "Capacitación"]

  /** The fields a freshly opened create dialog holds. */
  function DefaultForm(): EventForm {
    EventForm("", "Inspección", "", "", "09:00", "10:00")
  }

  /** `employeeList.find((e) => e.id === employeeId)`. */
  function FindEmployee(list: seq<EventActions.Employee>, id: string): (r: Option<EventActions.Employee>)
    ensures r.None? <==> forall i :: 0 <= i < |list| ==> list[i].id != id
    ensures r.Some? ==> r.value in list && r.value.id == id
  {
    if list == [] then None
    else if list[0].id == id then Some(list[0])
    else FindEmployee(list[1..], id)
  }

  function StartOf(form: EventForm): Option<DateTime> {
    ParseDateTime(form.startDate, form.startTime)
  }

  function EndOf(form: EventForm): Option<DateTime> {
    ParseDateTime(form.startDate, form.endTime)
  }

  /** `end <= start` on two dates. An Invalid Date compares false with
      anything, so it does not fail this check. */
  predicate EndNotAfter(start: Option<DateTime>, end: Option<DateTime>) {
    start.Some? && end.Some? && Le(end.value, start.value)
  }

  /** The guards both dialogs share once their required fields are present:
      the selected employee, then the time window. */
  function CheckEmployeeAndTimes(form: EventForm, list: seq<EventActions.Employee>)
    : (r: Result<EventActions.Employee, FormError>)
    ensures r == Err(InvalidEmployee) <==> FindEmployee(list, form.employeeId).None?
    ensures r == Err(EndNotAfterStart) <==>
              FindEmployee(list, form.employeeId).Some? && EndNotAfter(StartOf(form), EndOf(form))
    ensures r.Ok? ==> FindEmployee(list, form.employeeId) == Some(r.value)
  {
    match FindEmployee(list, form.employeeId)
    case None => Err(InvalidEmployee)
    case Some(emp) => if EndNotAfter(StartOf(form), EndOf(form)) then Err(EndNotAfterStart) else Ok(emp)
  }

  // ---------------------------------------------------------------------------
  // Create

  /** `handleSubmit` of the create dialog: the parameters passed to `onSubmit`
      (once), or the error shown. */
  function SubmitCreate(form: EventForm, list: seq<EventActions.Employee>)
    : (r: Result<EventActions.EventParams, FormError>)
    ensures r == Err(RequiredFields) <==>
              form.title == [] || form.startDate == [] || form.employeeId == [] || form.category == []
    ensures r == Err(InvalidEmployee) <==>
              form.title != [] && form.startDate != [] && form.employeeId != [] && form.category != []
              && FindEmployee(list, form.employeeId).None?
    ensures r == Err(EndNotAfterStart) <==>
              form.title != [] && form.startDate != [] && form.employeeId != [] && form.category != []
              && FindEmployee(list, form.employeeId).Some? && EndNotAfter(StartOf(form), EndOf(form))
    ensures r.Ok? ==>
              && Some(EventActions.Employee(r.value.userId, r.value.userName)) == FindEmployee(list, form.employeeId)
              && r.value.title == form.title && r.value.category == form.category
              && r.value.start == StartOf(form) && r.value.end == EndOf(form)
  {
    if form.title == [] || form.startDate == [] || form.employeeId == [] || form.category == [] then
      Err(RequiredFields)
    else
      match CheckEmployeeAndTimes(form, list)
      case Err(e) => Err(e)
      case Ok(emp) => Ok(EventActions.EventParams(form.title, form.category, emp.id, emp.name, StartOf(form), EndOf(form)))
  }

  lemma TwoDigits(c0: char, c1: char)
    requires IsAsciiDigit(c0) && IsAsciiDigit(c1)
    ensures ParseDigits([c0, c1]) == Some(DigitValue(c0, 10) * 10 + DigitValue(c1, 10))
  {
    var s := [c0, c1];
    assert s[..1] == [c0] && [c0][..0] == [];
    assert IsDecimal(s);
    assert DigitsValue([c0], 10) == DigitValue(c0, 10);
    assert DigitsValue(s, 10) == DigitsValue([c0], 10) * 10 + DigitValue(c1, 10);
  }

  lemma DefaultTimes()
    ensures ParseTime("09:00") == Some((9, 0)) && ParseTime("10:00") == Some((10, 0))
  {
    TwoDigits('0', '9');
    TwoDigits('1', '0');
    TwoDigits('0', '0');
    assert "09:00"[..2] == ['0', '9'] && "09:00"[3..] == ['0', '0'];
    assert "10:00"[..2] == ['1', '0'] && "10:00"[3..] == ['0', '0'];
  }

  /** The default times pass the time check on any date, and the default
      category is one of the three. */
  lemma DefaultsPassTimeCheck(date: string)
    requires ParseDate(date).Some?
    ensures !EndNotAfter(StartOf(DefaultForm().(startDate := date)), EndOf(DefaultForm().(startDate := date)))
    ensures DefaultForm().category in Categories
  {
    DefaultTimes();
  }

  /** A successful create sends an end strictly after the start, on the same
      date, unless one of them is an Invalid Date. */
  lemma SubmitCreateWindow(form: EventForm, list: seq<EventActions.Employee>)
    requires SubmitCreate(form, list).Ok?
    ensures var p := SubmitCreate(form, list).value;
            p.start.Some? && p.end.Some? ==>
              && Le(p.start.value, p.end.value) && p.start.value != p.end.value
              && p.start.value.year == p.end.value.year && p.start.value.month == p.end.value.month
              && p.start.value.day == p.end.value.day
  {
    var p := SubmitCreate(form, list).value;
    if p.start.Some? && p.end.Some? {
      LeTotalOrder(p.start.value, p.end.value, p.end.value);
    }
  }

  /** A date the inputs cannot read passes the form and reaches the action. */
  lemma InvalidDateReachesAction(form: EventForm, list: seq<EventActions.Employee>)
    requires form.title != [] && form.startDate != [] && form.employeeId != [] && form.category != []
    requires FindEmployee(list, form.employeeId).Some?
    requires ParseTime(form.startTime).None?
    ensures SubmitCreate(form, list).Ok? && SubmitCreate(form, list).value.start.None?
  {
  }

  // ---------------------------------------------------------------------------
  // Edit

  /** The fields the edit dialog copies from the event when it opens: the
      date of the start, and both times as zero-padded "HH:MM". The event's
      instants are read in one time zone, as a browser set to UTC reads them:
      the dialog takes the date in UTC and the hours in local time. */
  function Prefill(e: Event): (form: EventForm)
    requires IsValid(e.start) && IsValid(e.end)
    ensures |form.startTime| == 5 && |form.endTime| == 5
  {
    FormatTimeShape(e.start.hour, e.start.minute);
    FormatTimeShape(e.end.hour, e.end.minute);
    EventForm(e.title, e.category, e.userId, FormatDate(e.start.year, e.start.month, e.start.day),
              FormatTime(e.start.hour, e.start.minute), FormatTime(e.end.hour, e.end.minute))
  }

  /** A time below 100:100 is written `HH:MM`: two decimal digits that read
      back as the hour, a colon, and two that read back as the minute. */
  lemma FormatTimeShape(h: nat, mi: nat)
    requires h < 100 && mi < 100
    ensures var s := FormatTime(h, mi);
            |s| == 5 && s[2] == ':'
            && ParseDigits(s[..2]) == Some(h) && ParseDigits(s[3..]) == Some(mi)
  {
    ZeroPadTwoDigits(h);
    ZeroPadTwoDigits(mi);
    ColonJoinParts(ZeroPad(h, 2), ZeroPad(mi, 2));
  }

  /** Two two-character halves joined by a colon can be cut apart again. */
  lemma ColonJoinParts(hs: string, ms: string)
    requires |hs| == 2 && |ms| == 2
    ensures var s := hs + ":" + ms;
            |s| == 5 && s[2] == ':' && s[..2] == hs && s[3..] == ms
  {
    var s := hs + ":" + ms;
    assert s[..2] == hs;
    assert s[3..] == ms;
  }

  /** What the edit dialog hands on: the event's own id and account with the
      six fields the form sets. */
  datatype EditedEvent = EditedEvent(id: string, accountId: string, fields: EventActions.EventParams)

  /** `handleSubmit` of the edit dialog: like create, but the category is not
      among the required fields. */
  function SubmitEdit(form: EventForm, e: Event, list: seq<EventActions.Employee>) : (r: Result<EditedEvent, FormError>)
    ensures r == Err(RequiredFields) <==> form.title == [] || form.startDate == [] || form.employeeId == []
    ensures r == Err(InvalidEmployee) <==>
              form.title != [] && form.startDate != [] && form.employeeId != []
              && FindEmployee(list, form.employeeId).None?
    ensures r == Err(EndNotAfterStart) <==>
              form.title != [] && form.startDate != [] && form.employeeId != []
              && FindEmployee(list, form.employeeId).Some? && EndNotAfter(StartOf(form), EndOf(form))
    ensures r.Ok? ==>
              && r.value.id == e.id && r.value.accountId == e.accountId
              && Some(EventActions.Employee(r.value.fields.userId, r.value.fields.userName)) == FindEmployee(list, form.employeeId)
              && r.value.fields.title == form.title && r.value.fields.category == form.category
              && r.value.fields.start == StartOf(form) && r.value.fields.end == EndOf(form)
  {
    if form.title == [] || form.startDate == [] || form.employeeId == [] then Err(RequiredFields)
    else
      match CheckEmployeeAndTimes(form, list)
      case Err(err) => Err(err)
      case Ok(emp) =>
        Ok(EditedEvent(e.id, e.accountId,
                       EventActions.EventParams(form.title, form.category, emp.id, emp.name, StartOf(form), EndOf(form))))
  }

  /** The edit dialog accepts an empty category, which create refuses. */
  lemma EditAcceptsEmptyCategory(form: EventForm, e: Event, list: seq<EventActions.Employee>)
    requires form.category == [] && form.title != [] && form.startDate != [] && form.employeeId != []
    requires FindEmployee(list, form.employeeId).Some? && !EndNotAfter(StartOf(form), EndOf(form))
    ensures SubmitEdit(form, e, list).Ok?
    ensures SubmitCreate(form, list) == Err(RequiredFields)
  {
  }

  /** The event as the calendar holds it after the edit, when both instants
      were read: the original with exactly six fields replaced. */
  function Apply(e: Event, edited: EditedEvent): Event
    requires edited.fields.start.Some? && edited.fields.end.Some?
  {
    e.(id := edited.id, accountId := edited.accountId, title := edited.fields.title,
       category := edited.fields.category, start := edited.fields.start.value, end := edited.fields.end.value,
       userId := edited.fields.userId, userName := edited.fields.userName)
  }

  /** Opening the edit dialog on an event and submitting it untouched gives
      back the same event, when its times are whole minutes of one day with
      the end after the start, its year has four digits, and its employee is
      on the list under the same name. This is the round trip of a browser
      set to UTC, where the UTC date and the local hours agree. */
  lemma PrefillSubmitRoundTrip(e: Event, list: seq<EventActions.Employee>)
    requires IsValid(e.start) && IsValid(e.end) && 0 <= e.start.year <= 9999
    requires e.start.second == 0 && e.end.second == 0
    requires e.end.year == e.start.year && e.end.month == e.start.month && e.end.day == e.start.day
    requires Le(e.start, e.end) && e.start != e.end
    requires e.title != [] && e.userId != []
    requires FindEmployee(list, e.userId) == Some(EventActions.Employee(e.userId, e.userName))
    ensures var r := SubmitEdit(Prefill(e), e, list);
            r.Ok? && r.value.fields.start.Some? && r.value.fields.end.Some? && Apply(e, r.value) == e
  {
    var form := Prefill(e);
    PrefillReadsBack(e);
    LeTotalOrder(e.start, e.end, e.end);
    assert !EndNotAfter(StartOf(form), EndOf(form));
    assert form.startDate != [];
  }

  /** The prefilled date and times read back as the event's start and end,
      in a browser set to UTC. */
  lemma PrefillReadsBack(e: Event)
    requires IsValid(e.start) && IsValid(e.end) && 0 <= e.start.year <= 9999
    requires e.start.second == 0 && e.end.second == 0
    requires e.end.year == e.start.year && e.end.month == e.start.month && e.end.day == e.start.day
    ensures StartOf(Prefill(e)) == Some(e.start) && EndOf(Prefill(e)) == Some(e.end)
  {
    var date := FormatDate(e.start.year, e.start.month, e.start.day);
    ParseDateTimeRoundTrip(e.start);
    ParseDateTimeRoundTrip(e.end);
  }
}
