/** The "Add New Event" page: its form record, `handleChange`, the checks of
    `handleSubmit` (required fields, then the start and end dates against the current
    time), the mapping of a failed request to an error text, and the
    `formatDateTimeLocal` helper.

    Dates are not parsed here: `new Date(text)` is the parameter `parseDate`, which gives
    a timestamp, or `None` for an Invalid Date. `formatDateTimeLocal` receives the
    local calendar components of `new Date(text)` the same way. */
module EventAdd {
  import opened Wrappers
  import opened Js
  import opened Http

  datatype EventForm = EventForm(
    name: string,
    description: string,
    startDate: string,
    endDate: string,
    location: string)

  /** The initial form and the form after a successful submit. */
  const EmptyForm := EventForm("", "", "", "", "")

  datatype Field = Name | Description | StartDate | EndDate | Location

  function Get(f: EventForm, field: Field): string {
    match field
    case Name => f.name
    case Description => f.description
    case StartDate => f.startDate
    case EndDate => f.endDate
    case Location => f.location
  }

  /** `{ ...prev, [field]: value }` */
  function With(f: EventForm, field: Field, value: string): (r: EventForm)
    ensures Get(r, field) == value
    ensures forall g :: g != field ==> Get(r, g) == Get(f, g)
  {
    match field
    case Name => f.(name := value)
    case Description => f.(description := value)
    case StartDate => f.(startDate := value)
    case EndDate => f.(endDate := value)
    case Location => f.(location := value)
  }

  // ---------------------------------------------------------------------------
  // handleSubmit

  const RequiredMessage := "All fields are required"
  const PastMessage := "Start date cannot be in the past"
  const OrderMessage := "End date must be after start date"
  const SuccessMessage := "Event created successfully!"
  const GenericMessage := "Failed to create event. Please try again."

  /** The status branches of the catch block: 400 and 500, and no 409 branch. */
  const ErrorRules := [
    StatusRule(400, "Invalid data provided. Please check your inputs."),
    StatusRule(500, "Server error. Please try again later.")]

  predicate AllFilled(f: EventForm) {
    f.name != "" && f.description != "" && f.startDate != "" && f.endDate != "" && f.location != ""
  }

  /** The two date checks. A comparison with an Invalid Date (NaN) is false, so an
      invalid start or end date fails neither check. */
  function DateError(start: Option<int>, end: Option<int>, now: int): (r: Option<string>)
    ensures r == Some(PastMessage) <==> start.Some? && start.value < now
    ensures r == Some(OrderMessage) <==>
              start.Some? && now <= start.value && end.Some? && end.value <= start.value
    ensures r.None? || r == Some(PastMessage) || r == Some(OrderMessage)
  {
    if start.Some? && start.value < now then Some(PastMessage)
    else if start.Some? && end.Some? && end.value <= start.value then Some(OrderMessage)
    else None
  }

  /** The message of the first failing check of `handleSubmit`, or `None`. */
  function ValidationError(f: EventForm, start: Option<int>, end: Option<int>, now: int): (r: Option<string>)
    ensures r.None? <==> AllFilled(f) && DateError(start, end, now).None?
    ensures r.Some? ==> r.value in {RequiredMessage, PastMessage, OrderMessage}
  {
    if !AllFilled(f) then Some(RequiredMessage) else DateError(start, end, now)
  }

  /** An event whose dates pass the checks starts no earlier than now and lasts a
      strictly positive time. */
  lemma AcceptedEventHasPositiveDuration(f: EventForm, start: int, end: int, now: int)
    requires ValidationError(f, Some(start), Some(end), now).None?
    ensures AllFilled(f) && now <= start < end
  {
  }

  /** The past-start check comes before the ordering check: a start in the past is
      reported whatever the end date is. */
  lemma PastCheckedBeforeOrder(f: EventForm, start: int, end: Option<int>, now: int)
    requires AllFilled(f) && start < now
    ensures ValidationError(f, Some(start), end, now) == Some(PastMessage)
  {
  }

  /** A missing field is reported whatever the dates are. */
  lemma RequiredCheckedFirst(f: EventForm, start: Option<int>, end: Option<int>, now: int)
    requires !AllFilled(f)
    ensures ValidationError(f, start, end, now) == Some(RequiredMessage)
  {
  }

  /** Invalid dates slip through both date checks. */
  lemma InvalidDatesPassDateChecks(f: EventForm, now: int)
    requires AllFilled(f)
    ensures ValidationError(f, None, None, now).None?
  {
  }

  function SubmitErrorText(response: Option<ErrorResponse>): string {
    ErrorText(response, ErrorRules, GenericMessage)
  }

  /** Precedence of the catch block: the server's message, then 400, then 500, then the
      generic text. A 409 has no branch of its own and gets the generic text. */
  lemma SubmitErrorPrecedence(response: Option<ErrorResponse>)
    ensures response.None? ==> SubmitErrorText(response) == GenericMessage
    ensures response.Some? && HasServerMessage(response.value) ==>
              SubmitErrorText(response) == response.value.message.value
    ensures response.Some? && !HasServerMessage(response.value) ==>
              SubmitErrorText(response) ==
                match response.value.status
                case Some(400) => ErrorRules[0].text
                case Some(500) => ErrorRules[1].text
                case _ => GenericMessage
    ensures response == Some(ErrorResponse(None, Some(409))) ==> SubmitErrorText(response) == GenericMessage
    ensures SubmitErrorText(response) != ""
  {
    ErrorTextNonEmpty(response, ErrorRules, GenericMessage);
    if response.Some? && !HasServerMessage(response.value) {
      var status := response.value.status;
      if status == Some(400) {
        StatusTextFirstMatch(status, ErrorRules, GenericMessage, 0);
      } else if status == Some(500) {
        StatusTextFirstMatch(status, ErrorRules, GenericMessage, 1);
      } else {
        StatusTextNoMatch(status, ErrorRules, GenericMessage);
      }
    }
  }

  /** The body of the POST request: the form with its two dates as timestamps
      (their `toISOString` text is not modelled). */
  datatype EventRequest = EventRequest(form: EventForm, start: int, end: int)

  /** The page's state: `formData`, `error`, `success` and `loading`. */
  class AddEventPage {
    var formData: EventForm
    var error: string
    var success: string
    var loading: bool

    constructor ()
      ensures formData == EmptyForm && error == "" && success == "" && !loading
    {
      formData := EmptyForm;
      error := "";
      success := "";
      loading := false;
    }

    /** `handleChange(field, value)`: only the named field changes. */
    method HandleChange(field: Field, value: string)
      modifies this
      ensures formData == With(old(formData), field, value)
      ensures forall g :: g != field ==> Get(formData, g) == Get(old(formData), g)
      ensures error == old(error) && success == old(success) && loading == old(loading)
    {
      formData := With(formData, field, value);
    }

    /** `handleSubmit` at time `now`, given how the POST request ends. Returns the request
        that was sent, or `None` when none was. An Invalid Date that passed the checks
        makes `toISOString` throw inside the `try`: the catch block then sees no response. */
    method HandleSubmit(now: int, parseDate: string -> Option<int>, outcome: Outcome)
      returns (posted: Option<EventRequest>)
      modifies this
      ensures !loading
      ensures var f, start, end := old(formData), parseDate(old(formData).startDate), parseDate(old(formData).endDate);
        && (ValidationError(f, start, end, now).Some? ==>
              && posted == None
              && error == ValidationError(f, start, end, now).value
              && success == "" && formData == f)
        && (ValidationError(f, start, end, now).None? && (start.None? || end.None?) ==>
              && posted == None
              && error == SubmitErrorText(None)
              && success == "" && formData == f)
        && (ValidationError(f, start, end, now).None? && start.Some? && end.Some? ==>
              && posted == Some(EventRequest(f, start.value, end.value))
              && match outcome
                 case Responded(status) =>
                   && error == ""
                   && (Created(status) ==> success == SuccessMessage && formData == EmptyForm)
                   && (!Created(status) ==> success == "" && formData == f)
                 case Rejected(response) =>
                   error == SubmitErrorText(response) && success == "" && formData == f)
    {
      error := "";
      success := "";
      loading := true;

      if formData.name == "" || formData.description == "" || formData.startDate == ""
         || formData.endDate == "" || formData.location == ""
      {
        error := RequiredMessage;
        loading := false;
        return None;
      }

      var start := parseDate(formData.startDate);
      var end := parseDate(formData.endDate);

      if start.Some? && start.value < now {
        error := PastMessage;
        loading := false;
        return None;
      }
      if start.Some? && end.Some? && end.value <= start.value {
        error := OrderMessage;
        loading := false;
        return None;
      }

      if start.None? || end.None? {
        // toISOString throws a RangeError before the request is made
        posted := None;
        error := SubmitErrorText(None);
      } else {
        posted := Some(EventRequest(formData, start.value, end.value));
        match outcome {
          case Responded(status) =>
            if status == 201 || status == 200 {
              success := SuccessMessage;
              formData := EmptyForm;
            }
          case Rejected(response) =>
            error := SubmitErrorText(response);
        }
      }
      loading := false;
    }
  }

  // ---------------------------------------------------------------------------
  // formatDateTimeLocal

  /** What `getFullYear`, `getMonth`, `getDate`, `getHours` and `getMinutes` return for a
      valid date (the month counted from 0). */
  datatype DateParts = DateParts(year: int, monthIndex: nat, day: nat, hours: nat, minutes: nat)

  /** The ranges the runtime keeps the components in. */
  predicate InRange(p: DateParts) {
    p.monthIndex < 12 && 1 <= p.day <= 31 && p.hours < 24 && p.minutes < 60
  }

  /** `String(n).padStart(2, "0")` */
  function Two(n: nat): string {
    PadStart2(NatToString(n))
  }

  /** What every getter of an Invalid Date yields, `NaN`, put into the same template. */
  const InvalidText := "NaN-NaN-NaNTNaN:NaN"

  /** `formatDateTimeLocal(date)`, where `components(date)` stands for the local calendar
      components of `new Date(date)` (`None` for an Invalid Date). */
  function FormatDateTimeLocal(date: string, components: string -> Option<DateParts>): (r: string)
    ensures date == "" ==> r == ""
    ensures date != "" && components(date).None? ==> r == InvalidText
  {
    if date == "" then ""
    else match components(date)
      case None => InvalidText
      case Some(p) =>
        IntToString(p.year) + "-" + Two(p.monthIndex + 1) + "-" + Two(p.day)
          + "T" + Two(p.hours) + ":" + Two(p.minutes)
  }

  /** Reads back a `YYYY-MM-DDTHH:MM` text: the year is everything before the last
      twelve characters, which hold the fixed two-digit fields and separators. */
  function ParseDateTimeLocal(s: string): Option<DateParts> {
    if |s| < 13 then None
    else
      var y, t := s[..|s| - 12], s[|s| - 12..];
      if && t[0] == '-' && t[3] == '-' && t[6] == 'T' && t[9] == ':'
         && AllDigits(t[1..3]) && AllDigits(t[4..6]) && AllDigits(t[7..9]) && AllDigits(t[10..12])
         && DigitsValue(t[1..3]) >= 1
      then
        match ParseYear(y)
        case None => None
        case Some(year) =>
          Some(DateParts(year, DigitsValue(t[1..3]) - 1, DigitsValue(t[4..6]),
                         DigitsValue(t[7..9]), DigitsValue(t[10..12])))
      else None
  }

  function ParseYear(y: string): Option<int> {
    if |y| >= 2 && y[0] == '-' && AllDigits(y[1..]) then
      var v: int := DigitsValue(y[1..]); Some(-v)
    else if |y| >= 1 && AllDigits(y) then Some(DigitsValue(y))
    else None
  }

  /** Each two-digit field is exactly two digits that read back as the number. */
  lemma TwoRoundTrip(n: nat)
    requires n < 100
    ensures |Two(n)| == 2 && AllDigits(Two(n)) && DigitsValue(Two(n)) == n
  {
    NatToStringRoundTrip(n);
    var s := NatToString(n);
    if n < 10 {
      assert Two(n) == ['0'] + s;
      assert Two(n)[..1] == ['0'];
    }
  }

  lemma YearRoundTrip(year: int)
    ensures ParseYear(IntToString(year)) == Some(year)
  {
    if year < 0 {
      NegativeYearRoundTrip(-year);
      assert IntToString(year) == "-" + NatToString(-year);
    } else {
      NatToStringRoundTrip(year);
      var s := NatToString(year);
      assert IntToString(year) == s;
      assert s[0] != '-' by {
        assert IsDigit(s[0]);
      }
    }
  }

  lemma NegativeYearRoundTrip(n: nat)
    requires n > 0
    ensures ParseYear("-" + NatToString(n)) == Some(-(n as int))
  {
    var d := NatToString(n);
    var s := "-" + d;
    NatToStringRoundTrip(n);
    assert s[0] == '-' && s[1..] == d;
  }

  /** For a valid date the text has the shape `YYYY-MM-DDTHH:MM` and reads back as the
      same components: the month is written counting from 1 and every field but the
      year is padded to two digits. */
  lemma FormatRoundTrip(date: string, components: string -> Option<DateParts>)
    requires date != "" && components(date).Some? && InRange(components(date).value)
    ensures ParseDateTimeLocal(FormatDateTimeLocal(date, components)) == components(date)
  {
    var p := components(date).value;
    TwoRoundTrip(p.monthIndex + 1);
    TwoRoundTrip(p.day);
    TwoRoundTrip(p.hours);
    TwoRoundTrip(p.minutes);
    YearRoundTrip(p.year);
    var y, mo, d, h, mi := IntToString(p.year), Two(p.monthIndex + 1), Two(p.day), Two(p.hours), Two(p.minutes);
    Layout(y, mo, d, h, mi);
    ReadBack(y, Tail(mo, d, h, mi));
  }

  /** The fixed part of the text: separators and the four two-digit fields. */
  function Tail(mo: string, d: string, h: string, mi: string): (t: string)
    requires |mo| == 2 && |d| == 2 && |h| == 2 && |mi| == 2
    ensures |t| == 12
  {
    ['-', mo[0], mo[1], '-', d[0], d[1], 'T', h[0], h[1], ':', mi[0], mi[1]]
  }

  lemma Layout(y: string, mo: string, d: string, h: string, mi: string)
    requires |mo| == 2 && |d| == 2 && |h| == 2 && |mi| == 2
    ensures y + "-" + mo + "-" + d + "T" + h + ":" + mi == y + Tail(mo, d, h, mi)
    ensures Tail(mo, d, h, mi)[1..3] == mo && Tail(mo, d, h, mi)[4..6] == d
    ensures Tail(mo, d, h, mi)[7..9] == h && Tail(mo, d, h, mi)[10..12] == mi
  {
    assert mo == [mo[0], mo[1]] && d == [d[0], d[1]] && h == [h[0], h[1]] && mi == [mi[0], mi[1]];
  }

  /** The parser splits the text back into the year and the fixed twelve-character tail. */
  lemma ReadBack(y: string, t: string)
    requires |t| == 12 && |y| >= 1
    ensures ParseDateTimeLocal(y + t) ==
      if && t[0] == '-' && t[3] == '-' && t[6] == 'T' && t[9] == ':'
         && AllDigits(t[1..3]) && AllDigits(t[4..6]) && AllDigits(t[7..9]) && AllDigits(t[10..12])
         && DigitsValue(t[1..3]) >= 1 && ParseYear(y).Some?
      then Some(DateParts(ParseYear(y).value, DigitsValue(t[1..3]) - 1, DigitsValue(t[4..6]),
                          DigitsValue(t[7..9]), DigitsValue(t[10..12])))
      else None
  {
    var s := y + t;
    assert s[..|s| - 12] == y && s[|s| - 12..] == t;
  }
}
