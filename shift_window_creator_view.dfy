/**
 * The admin form that creates a shift window: its state (the three text
 * fields and the error and success messages), the ordered client-side checks
 * run before submitting, and the choice of the submitted name. Parsing
 * of the date inputs is a parameter that gives a `DateField`; an
 * unparsable date is NaN in the source, and every comparison with NaN is
 * false, so it fails none of the ordered checks. Month names for the
 * generated window name are a parameter too.
 */
module ShiftWindowCreatorView {
  import opened Common

  /** The error of the first failing check, in the order the form runs them. */
  datatype FormError = MissingDates | StartInPast | EndNotAfterStart | TooLong

  function Message(e: FormError): string
  {
    match e
    case MissingDates => "Please select both start and end dates"
    case StartInPast => "Start date cannot be in the past"
    case EndNotAfterStart => "End date must be after start date"
    case TooLong => "Window duration cannot exceed 90 days"
  }

  const MAX_DAYS: int := 90

  /** `Math.ceil(ms / (1000 * 60 * 60 * 24))` for a non-negative span. */
  function CeilDays(ms: nat): (d: nat)
    ensures (d - 1) * DAY_MS < ms <= d * DAY_MS
  {
    (ms + DAY_MS - 1) / DAY_MS
  }

  /**
   * `validateForm`: None when every check passes. `today` is the local
   * midnight of the current day.
   */
  function Validate(startText: string, endText: string, parse: string -> DateField, today: Time): (e: Option<FormError>)
    ensures e == Some(MissingDates) <==> startText == "" || endText == ""
    ensures e == Some(StartInPast) <==> (startText != "" && endText != ""
      && parse(startText).Parsed? && parse(startText).t < today)
    ensures e == Some(EndNotAfterStart) <==> (startText != "" && endText != ""
      && parse(startText).Parsed? && parse(startText).t >= today
      && parse(endText).Parsed? && parse(endText).t <= parse(startText).t)
    ensures e == Some(TooLong) <==> (startText != "" && endText != ""
      && parse(startText).Parsed? && parse(startText).t >= today
      && parse(endText).Parsed? && parse(endText).t - parse(startText).t > MAX_DAYS * DAY_MS)
  {
    if startText == "" || endText == "" then Some(MissingDates)
    else
      var start, end := parse(startText), parse(endText);
      if start.Parsed? && start.t < today then Some(StartInPast)
      else if start.Parsed? && end.Parsed? && end.t <= start.t then Some(EndNotAfterStart)
      else if start.Parsed? && end.Parsed? && CeilDays(end.t - start.t) > MAX_DAYS then Some(TooLong)
      else None
  }

  /** A form that passes starts no earlier than today, ends after it starts, and spans at most 90 days. */
  lemma AcceptedWindowIsSane(startText: string, endText: string, parse: string -> DateField, today: Time)
    requires Validate(startText, endText, parse, today).None?
    requires parse(startText).Parsed? && parse(endText).Parsed?
    ensures today <= parse(startText).t < parse(endText).t <= parse(startText).t + MAX_DAYS * DAY_MS
  {
  }

  /** The day boundary: a start at today's midnight passes, one millisecond earlier does not. */
  lemma StartTodayAllowed(startText: string, endText: string, parse: string -> DateField, today: Time)
    requires startText != "" && endText != "" && parse(startText) == Parsed(today)
    ensures Validate(startText, endText, parse, today) != Some(StartInPast)
  {
  }

  /** The length boundary: exactly 90 days passes, one millisecond more fails. */
  lemma NinetyDaysAllowed(startText: string, endText: string, parse: string -> DateField, today: Time, start: Time)
    requires startText != "" && endText != "" && today <= start && parse(startText) == Parsed(start)
    ensures parse(endText) == Parsed(start + MAX_DAYS * DAY_MS) ==> Validate(startText, endText, parse, today).None?
    ensures parse(endText) == Parsed(start + MAX_DAYS * DAY_MS + 1) ==> Validate(startText, endText, parse, today) == Some(TooLong)
  {
  }

  // ---------------------------------------------------------------------------
  // The submitted name
  // ---------------------------------------------------------------------------

  /** `generateWindowName`: nothing until both dates are filled in; `months` writes the month text. */
  function GeneratedName(startText: string, endText: string, months: (string, string) -> string): (n: string)
    ensures startText == "" || endText == "" ==> n == ""
    ensures startText != "" && endText != "" ==> n == months(startText, endText)
  {
    if startText == "" || endText == "" then "" else months(startText, endText)
  }

  /** `formData.name || generateWindowName(...)`: a typed name wins over the generated one. */
  function SubmittedName(name: string, startText: string, endText: string, months: (string, string) -> string): (n: string)
    ensures name != "" ==> n == name
    ensures name == "" ==> n == GeneratedName(startText, endText, months)
  {
    if name != "" then name else GeneratedName(startText, endText, months)
  }

  // ---------------------------------------------------------------------------
  // The form's state
  // ---------------------------------------------------------------------------

  datatype Field = Name | StartDate | EndDate

  class WindowForm {
    var name: string
    var startDate: string
    var endDate: string
    var error: Option<string>
    var success: Option<string>

    constructor ()
      ensures name == "" && startDate == "" && endDate == "" && error == None && success == None
    {
      name, startDate, endDate := "", "", "";
      error, success := None, None;
    }

    /** `handleInputChange`: the one field takes the value and both messages are cleared. */
    method HandleInputChange(field: Field, value: string)
      modifies this
      ensures name == (if field == Name then value else old(name))
      ensures startDate == (if field == StartDate then value else old(startDate))
      ensures endDate == (if field == EndDate then value else old(endDate))
      ensures error == None && success == None
    {
      match field {
        case Name => name := value;
        case StartDate => startDate := value;
        case EndDate => endDate := value;
      }
      if error.Some? { error := None; }
      if success.Some? { success := None; }
    }

    /** `validateForm`: the first failing check's message is set as the error; passing leaves it alone. */
    method ValidateForm(parse: string -> DateField, today: Time) returns (ok: bool)
      modifies this
      ensures ok <==> Validate(old(startDate), old(endDate), parse, today).None?
      ensures !ok ==> error == Some(Message(Validate(old(startDate), old(endDate), parse, today).value))
      ensures ok ==> error == old(error)
      ensures name == old(name) && startDate == old(startDate) && endDate == old(endDate) && success == old(success)
    {
      var e := Validate(startDate, endDate, parse, today);
      if e.Some? {
        error := Some(Message(e.value));
        return false;
      }
      ok := true;
    }
  }
}
