/**
 * `ReservationForm`: the date, time and party size a user submits to book
 * a table.  The current date and time, which the form reads from the
 * clock, are parameters here: `today` is a day ordinal and `now` the
 * seconds since midnight.
 */
module ReservationForm {
  import opened Wrappers
  import opened Clock
  import Models

  /** Bookings start at 18:00 ... */
  const StartHour: nat := 18
  /** ... and the last accepted start is 21:00. */
  const EndHour: nat := 21
  const Opening: Minute := StartHour * 60
  const LastCall: Minute := EndHour * 60
  /** A booking may be made at most this many days ahead. */
  const HorizonDays: nat := 90
  /** The number of bookable start times. */
  const SlotCount: nat := 7

  datatype ReservationError =
    | Required            // the form field's own "this field is required"
    | InvalidChoice       // the choice field: a value not among TIME_CHOICES
    | MissingDate         // raised by clean_reservation_date
    | DateInPast
    | DateTooFarOut
    | MissingTime         // raised by clean_reservation_time
    | InvalidTimeFormat   // raised by clean_reservation_time or by clean
    | TimeBeforeOpening
    | TimeAfterLastCall
    | SameDayTimeElapsed  // raised by clean
    | PartySizeTooSmall   // the model's MinValueValidator(1)

  // ------------------------------------------------------------ TIME_CHOICES

  /** The i-th bookable start time: 18:00 plus i half hours. */
  function Slot(i: nat): (m: Minute)
    requires i < SlotCount
    ensures Opening <= m <= LastCall
  {
    Opening + 30 * i
  }

  /** The seven (value, label) pairs TIME_CHOICES ends up holding. */
  function ChoiceTable(): (t: seq<(string, string)>)
    ensures |t| == SlotCount
  {
    [("18:00", "18:00"), ("18:30", "18:30"), ("19:00", "19:00"), ("19:30", "19:30"),
     ("20:00", "20:00"), ("20:30", "20:30"), ("21:00", "21:00")]
  }

  /** Entry i of the table reads as slot i. */
  lemma ChoiceReads(i: nat)
    requires i < SlotCount
    ensures Parse(ChoiceTable()[i].0) == Some(Slot(i))
  {
    if i == 0 { assert Parse("18:00") == Some(Slot(0)); }
    else if i == 1 { assert Parse("18:30") == Some(Slot(1)); }
    else if i == 2 { assert Parse("19:00") == Some(Slot(2)); }
    else if i == 3 { assert Parse("19:30") == Some(Slot(3)); }
    else if i == 4 { assert Parse("20:00") == Some(Slot(4)); }
    else if i == 5 { assert Parse("20:30") == Some(Slot(5)); }
    else { assert Parse("21:00") == Some(Slot(6)); }
  }

  /** Entry i of the table is slot i's "HH:MM" rendering, as both value and label. */
  lemma ChoiceEntry(i: nat)
    requires i < SlotCount
    ensures ChoiceTable()[i] == (Format(Slot(i)), Format(Slot(i)))
  {
    ChoiceReads(i);
    FormatParse(ChoiceTable()[i].0);
  }

  /**
   * The class-body loop that fills TIME_CHOICES: for each hour from 18 to
   * 21 and each minute in [0, 30], stop the inner loop at 21:30, otherwise
   * append the "HH:MM" rendering as both value and label.
   */
  method BuildTimeChoices() returns (choices: seq<(string, string)>)
    ensures choices == ChoiceTable()
  {
    choices := [];
    var startHour, endHour := StartHour, EndHour;
    for hour := startHour to endHour + 1
      invariant |choices| == if hour <= endHour then 2 * (hour - startHour) else SlotCount
      invariant forall j :: 0 <= j < |choices| ==> choices[j] == (Format(Slot(j)), Format(Slot(j)))
    {
      var minutes := [0, 30];
      for k := 0 to |minutes|
        invariant hour == endHour ==> k <= 1
        invariant |choices| == 2 * (hour - startHour) + k
        invariant forall j :: 0 <= j < |choices| ==> choices[j] == (Format(Slot(j)), Format(Slot(j)))
      {
        var minute := minutes[k];
        if hour == endHour && minute > 0 {
          break;  // 21:30 is not offered
        }
        assert At(hour, minute) == Slot(|choices|);
        var timeStr := Format(At(hour, minute));
        choices := choices + [(timeStr, timeStr)];
      }
    }
    forall j | 0 <= j < SlotCount ensures choices[j] == ChoiceTable()[j] {
      ChoiceEntry(j);
    }
  }

  /** A start time on the half-hour grid between opening and last call. */
  predicate OnGrid(m: Minute)
  {
    Opening <= m <= LastCall && m % 30 == 0
  }

  /** The slots are exactly the half-hour grid from 18:00 to 21:00. */
  lemma SlotsAreGrid(m: Minute)
    ensures OnGrid(m) <==> exists i :: 0 <= i < SlotCount && Slot(i) == m
  {
    if OnGrid(m) {
      var i := (m - Opening) / 30;
      assert Slot(i) == m;
    }
  }

  /** The entries ascend: an earlier value names an earlier time, half an hour per step. */
  lemma ChoiceTableAscending(i: nat, j: nat)
    requires i < j < SlotCount
    ensures Parse(ChoiceTable()[i].0).value + 30 * (j - i) == Parse(ChoiceTable()[j].0).value
  {
    ChoiceReads(i);
    ChoiceReads(j);
  }

  /** `value in TIME_CHOICES` as the choice field tests it: equal to some pair's value. */
  predicate IsChoiceValue(s: string)
  {
    exists i :: 0 <= i < SlotCount && ChoiceTable()[i].0 == s
  }

  /** Every offered value is the "HH:MM" of a grid time. */
  lemma ChoiceIsGridTime(s: string)
    requires IsChoiceValue(s)
    ensures Parse(s).Some? && OnGrid(Parse(s).value)
  {
    var i :| 0 <= i < SlotCount && ChoiceTable()[i].0 == s;
    ChoiceReads(i);
    SlotsAreGrid(Slot(i));
  }

  /** The "HH:MM" of every grid time is offered. */
  lemma GridTimeIsChoice(s: string)
    requires Parse(s).Some? && OnGrid(Parse(s).value)
    ensures IsChoiceValue(s)
  {
    var m := Parse(s).value;
    SlotsAreGrid(m);
    var i :| 0 <= i < SlotCount && Slot(i) == m;
    FormatParse(s);
    ChoiceEntry(i);
  }

  /** A string is a choice value exactly when it is the "HH:MM" of a grid time. */
  lemma ChoiceValues(s: string)
    ensures IsChoiceValue(s) <==> Parse(s).Some? && OnGrid(Parse(s).value)
  {
    if IsChoiceValue(s) {
      ChoiceIsGridTime(s);
    }
    if Parse(s).Some? && OnGrid(Parse(s).value) {
      GridTimeIsChoice(s);
    }
  }

  /** 21:30, the time the loop's `break` skips, is a well-formed time but not offered. */
  lemma LateSlotNotOffered()
    ensures Parse("21:30") == Some(21 * 60 + 30)
    ensures !IsChoiceValue("21:30")
  {
    assert Parse("21:30") == Some(21 * 60 + 30);
    ChoiceValues("21:30");
  }

  // ---------------------------------------------------- clean_reservation_date

  /**
   * `clean_reservation_date`: a missing date, a date before today and a
   * date more than 90 days after today are each an error; today and the
   * ninetieth day are both accepted, and the date is returned unchanged.
   */
  function CleanReservationDate(date: Option<Models.Day>, today: Models.Day): (r: Result<Models.Day, ReservationError>)
    ensures r.Ok? <==> date.Some? && today <= date.value <= today + HorizonDays
    ensures r.Ok? ==> r.value == date.value
    ensures r == Err(MissingDate) <==> date.None?
    ensures r == Err(DateInPast) <==> date.Some? && date.value < today
    ensures r == Err(DateTooFarOut) <==> date.Some? && date.value > today + HorizonDays
  {
    if date.None? then Err(MissingDate)
    else if date.value < today then Err(DateInPast)
    else if date.value > today + HorizonDays then Err(DateTooFarOut)
    else Ok(date.value)
  }

  // ---------------------------------------------------- clean_reservation_time

  /**
   * `clean_reservation_time`: an empty value, a value that is not "HH:MM",
   * a time before 18:00 and a time after 21:00 are each an error; 18:00 and
   * 21:00 themselves are accepted.  The result is the time the string
   * names, and the string is its rendering.
   */
  function CleanReservationTime(s: string): (r: Result<Minute, ReservationError>)
    ensures r == Err(MissingTime) <==> s == ""
    ensures r == Err(InvalidTimeFormat) <==> s != "" && Parse(s).None?
    ensures r == Err(TimeBeforeOpening) <==> Parse(s).Some? && Parse(s).value < Opening
    ensures r == Err(TimeAfterLastCall) <==> Parse(s).Some? && Parse(s).value > LastCall
    ensures r.Ok? <==> Parse(s).Some? && Opening <= Parse(s).value <= LastCall
    ensures r.Ok? ==> Parse(s) == Some(r.value) && Format(r.value) == s
  {
    if s == "" then Err(MissingTime)
    else
      var t := Parse(s);
      if t.None? then Err(InvalidTimeFormat)
      else if t.value < Opening then Err(TimeBeforeOpening)
      else if t.value > LastCall then Err(TimeAfterLastCall)
      else
        FormatParse(s);
        Ok(t.value)
  }

  /** Every value TIME_CHOICES offers passes `clean_reservation_time` as its own slot. */
  lemma ChoicesPassCleanTime(i: nat)
    requires i < SlotCount
    ensures CleanReservationTime(ChoiceTable()[i].0) == Ok(Slot(i))
  {
    ChoiceReads(i);
  }

  /**
   * The `reservation_time` choice field as a whole: the required check, the
   * membership check against TIME_CHOICES, then `clean_reservation_time`.
   * Exactly the offered values pass, each as its own grid time, so none of
   * `clean_reservation_time`'s own errors can be raised through the form.
   */
  function TimeChoiceField(s: string): (r: Result<Minute, ReservationError>)
    ensures r.Ok? <==> IsChoiceValue(s)
    ensures r.Ok? ==> OnGrid(r.value) && Format(r.value) == s
    ensures r.Err? ==> r.error == Required || r.error == InvalidChoice
    ensures r == Err(Required) <==> s == ""
    ensures r == Err(InvalidChoice) <==> s != "" && !IsChoiceValue(s)
  {
    ChoiceValues(s);
    if s == "" then Err(Required)
    else if !IsChoiceValue(s) then Err(InvalidChoice)
    else CleanReservationTime(s)
  }

  // ------------------------------------------------------------------- clean

  /**
   * The value `clean` finds under "reservation_time": the string the user
   * sent, or the time `clean_reservation_time` already made of it.
   */
  datatype TimeValue = TimeString(s: string) | TimeObject(m: Minute)

  /** Python truthiness: an empty string is false, a `time` (since 3.5) always true. */
  predicate Truthy(v: TimeValue)
  {
    v.TimeString? ==> v.s != ""
  }

  /** The time `clean` compares: a string is read with "%H:%M" first. */
  function TimeOf(v: TimeValue): Option<Minute>
  {
    match v
    case TimeString(s) => Parse(s)
    case TimeObject(m) => Some(m)
  }

  /**
   * `clean`, the cross-field check. It runs only when both a date and a
   * time survived their field checks; then a booking for today must start
   * strictly after the current time. `now` has whole seconds: a slot has
   * zero seconds, so dropping the sub-second part of the clock cannot
   * change the outcome of `slot <= now`.
   */
  function Clean(date: Option<Models.Day>, time: Option<TimeValue>, today: Models.Day, now: Second): (r: Option<ReservationError>)
    ensures date.None? || time.None? ==> r.None?
    ensures r.Some? ==> r.value == InvalidTimeFormat || r.value == SameDayTimeElapsed
    ensures r == Some(SameDayTimeElapsed) <==>
              date == Some(today) && time.Some? && Truthy(time.value) && TimeOf(time.value).Some?
              && ToSeconds(TimeOf(time.value).value) <= now
    ensures r == Some(InvalidTimeFormat) <==>
              date.Some? && time.Some? && Truthy(time.value) && TimeOf(time.value).None?
  {
    if date.Some? && time.Some? && Truthy(time.value) then
      var t := TimeOf(time.value);
      if t.None? then Some(InvalidTimeFormat)
      else if date.value == today && ToSeconds(t.value) <= now then Some(SameDayTimeElapsed)
      else None
    else None
  }

  /** A date other than today never draws a cross-field error from a well-formed time. */
  lemma CleanOtherDay(date: Models.Day, v: TimeValue, today: Models.Day, now: Second)
    requires date != today && TimeOf(v).Some?
    ensures Clean(Some(date), Some(v), today, now).None?
  {
  }

  // ---------------------------------------------------------- the whole form

  /** What the user submitted; a blank date or party size is None. */
  datatype ReservationInput = ReservationInput(date: Option<Models.Day>, time: string, people: Option<int>)

  /** The cleaned values the form hands on to be saved as a `Reservation`. */
  datatype Booking = Booking(date: Models.Day, time: Minute, people: int)

  /** One error (or none) per field, plus the form-wide error of `clean`. */
  datatype ReservationErrors = ReservationErrors(
    date: Option<ReservationError>,
    time: Option<ReservationError>,
    people: Option<ReservationError>,
    form: Option<ReservationError>)

  /**
   * The required date field, then `clean_reservation_date`: a blank date is
   * "required", so `clean_reservation_date` only ever sees a date, and
   * exactly the dates from today to 90 days ahead pass, unchanged.
   */
  function DateField(date: Option<Models.Day>, today: Models.Day): (r: Result<Models.Day, ReservationError>)
    ensures r.Ok? <==> date.Some? && today <= date.value <= today + HorizonDays
    ensures r.Ok? ==> r.value == date.value
    ensures r.Err? ==> r.error in {Required, DateInPast, DateTooFarOut}
    ensures r == Err(Required) <==> date.None?
    ensures r == Err(DateInPast) <==> date.Some? && date.value < today
    ensures r == Err(DateTooFarOut) <==> date.Some? && date.value > today + HorizonDays
  {
    if date.None? then Err(Required) else CleanReservationDate(date, today)
  }

  /**
   * The required party-size field, then the model's `MinValueValidator(1)`:
   * any party of at least one person passes unchanged, however large.
   */
  function PeopleField(people: Option<int>): (r: Result<int, ReservationError>)
    ensures r.Ok? <==> people.Some? && Models.PartySizeValid(people.value)
    ensures r.Ok? ==> r.value == people.value
    ensures r == Err(Required) <==> people.None?
    ensures r == Err(PartySizeTooSmall) <==> people.Some? && people.value < 1
  {
    if people.None? then Err(Required)
    else if !Models.PartySizeValid(people.value) then Err(PartySizeTooSmall)
    else Ok(people.value)
  }

  /**
   * The declarative rule the form enforces: a date from today to 90 days
   * ahead, one of the offered times, at least one person, and for today a
   * time later than now. No upper bound on the party size.
   */
  predicate Acceptable(input: ReservationInput, today: Models.Day, now: Second)
  {
    && input.date.Some? && today <= input.date.value <= today + HorizonDays
    && Parse(input.time).Some? && OnGrid(Parse(input.time).value)
    && input.people.Some? && input.people.value >= 1
    && (input.date.value == today ==> ToSeconds(Parse(input.time).value) > now)
  }

  /**
   * `is_valid()` of the reservation form: each field is cleaned on its own,
   * `clean` sees only the fields that survived, and the form is valid when
   * no error was raised anywhere.  A valid form hands on exactly the
   * submitted date, the time its string names and the party size.
   */
  function Validate(input: ReservationInput, today: Models.Day, now: Second): (r: Result<Booking, ReservationErrors>)
    ensures r.Ok? <==> Acceptable(input, today, now)
    ensures r.Ok? ==> r.value == Booking(input.date.value, Parse(input.time).value, input.people.value)
    ensures r.Err? ==> r.error.date.Some? || r.error.time.Some? || r.error.people.Some? || r.error.form.Some?
  {
    ChoiceValues(input.time);
    var date := DateField(input.date, today);
    var time := TimeChoiceField(input.time);
    var people := PeopleField(input.people);
    var form := Clean(if date.Ok? then Some(date.value) else None,
                      if time.Ok? then Some(TimeObject(time.value)) else None,
                      today, now);
    if date.Ok? && time.Ok? && people.Ok? && form.None? then
      Ok(Booking(date.value, time.value, people.value))
    else
      Err(ReservationErrors(ErrorOf(date), ErrorOf(time), ErrorOf(people), form))
  }

  /**
   * The errors of each field, as the form reports them: the date field's
   * are exactly the required check and `clean_reservation_date`'s range
   * checks, the time field's the required and choice checks, the party
   * size's the required check and the minimum.
   */
  lemma FieldErrors(input: ReservationInput, today: Models.Day, now: Second)
    requires Validate(input, today, now).Err?
    ensures var e := Validate(input, today, now).error;
      && (e.date == Some(Required) <==> input.date.None?)
      && (e.date == Some(DateInPast) <==> input.date.Some? && input.date.value < today)
      && (e.date == Some(DateTooFarOut) <==> input.date.Some? && input.date.value > today + HorizonDays)
      && (e.time == Some(Required) <==> input.time == "")
      && (e.time == Some(InvalidChoice) <==> input.time != "" && !IsChoiceValue(input.time))
      && (e.people == Some(Required) <==> input.people.None?)
      && (e.people == Some(PartySizeTooSmall) <==> input.people.Some? && input.people.value < 1)
      && (e.date.None? <==> input.date.Some? && today <= input.date.value <= today + HorizonDays)
      && (e.time.None? <==> IsChoiceValue(input.time))
      && (e.people.None? <==> input.people.Some? && input.people.value >= 1)
  {
    ChoiceValues(input.time);
  }

  /**
   * `clean`'s error appears only when the date and the time both passed
   * their fields, it is never the format error, and it is the same-day
   * error exactly when the booking is for today at a slot not after now.
   */
  lemma CrossFieldError(input: ReservationInput, today: Models.Day, now: Second)
    requires Validate(input, today, now).Err?
    ensures var e := Validate(input, today, now).error;
      && (e.form.Some? ==> e.date.None? && e.time.None?)
      && e.form != Some(InvalidTimeFormat)
      && (e.form.None? || e.form == Some(SameDayTimeElapsed))
      && (e.form == Some(SameDayTimeElapsed) <==>
            input.date == Some(today) && IsChoiceValue(input.time)
            && ToSeconds(Parse(input.time).value) <= now)
  {
    ChoiceValues(input.time);
  }

  /**
   * Through the form, `clean_reservation_date`'s "missing" error and all of
   * `clean_reservation_time`'s errors are unreachable: the form fields'
   * required and choice checks reject those inputs first.
   */
  lemma GuardedErrorsUnreachable(input: ReservationInput, today: Models.Day, now: Second)
    requires Validate(input, today, now).Err?
    ensures var e := Validate(input, today, now).error;
      e.date != Some(MissingDate)
      && e.time != Some(MissingTime) && e.time != Some(InvalidTimeFormat)
      && e.time != Some(TimeBeforeOpening) && e.time != Some(TimeAfterLastCall)
  {
  }

  /** An accepted booking saved as a new reservation is a valid, confirmed row at its submitted time. */
  lemma AcceptedBookingIsValid(input: ReservationInput, today: Models.Day, now: Second,
                               user: Models.UserId, restaurant: Models.RestaurantId)
    requires Validate(input, today, now).Ok?
    ensures var b := Validate(input, today, now).value;
      var row := Models.NewReservation(user, restaurant, b.date, b.time, b.people);
      && Models.ReservationValid(row) && row.status == Models.Confirmed
      && today <= row.date <= today + HorizonDays && OnGrid(row.time)
      && Format(row.time) == input.time
  {
    FormatParse(input.time);
  }

  // --------------------------------------------------------------- scenarios

  /** "19:00" is an offered value and names 19:00. */
  lemma SevenPm()
    ensures Parse("19:00") == Some(19 * 60) && IsChoiceValue("19:00")
  {
    assert Parse("19:00") == Some(19 * 60);
    ChoiceValues("19:00");
  }

  /** "17:30" names 17:30, half an hour before opening, and is not offered. */
  lemma HalfPastFive()
    ensures Parse("17:30") == Some(17 * 60 + 30) && !IsChoiceValue("17:30")
  {
    assert Parse("17:30") == Some(17 * 60 + 30);
    ChoiceValues("17:30");
  }

  /** At 10:00, 19:00 the same day for two is accepted. */
  lemma ScenarioSameDayLater(today: Models.Day)
    ensures Validate(ReservationInput(Some(today), "19:00", Some(2)), today, 10 * 3600)
         == Ok(Booking(today, 19 * 60, 2))
  {
    SevenPm();
  }

  /** At 20:00, 19:00 the same day has already passed: only the cross-field error. */
  lemma ScenarioSameDayElapsed(today: Models.Day)
    ensures Validate(ReservationInput(Some(today), "19:00", Some(2)), today, 20 * 3600)
         == Err(ReservationErrors(None, None, None, Some(SameDayTimeElapsed)))
  {
    SevenPm();
  }

  /** 17:30 is not offered, so the choice field rejects it before the opening-hours check would. */
  lemma ScenarioBeforeOpening(today: Models.Day)
    ensures Validate(ReservationInput(Some(today), "17:30", Some(2)), today, 10 * 3600)
         == Err(ReservationErrors(None, Some(InvalidChoice), None, None))
    ensures CleanReservationTime("17:30") == Err(TimeBeforeOpening)
  {
    HalfPastFive();
  }

  /** A party of twelve is accepted: only the lower bound is enforced. */
  lemma ScenarioLargeParty(today: Models.Day)
    ensures Validate(ReservationInput(Some(today), "19:00", Some(12)), today, 10 * 3600)
         == Ok(Booking(today, 19 * 60, 12))
  {
    SevenPm();
  }

  /** 106 days ahead (1 June to 15 September) is beyond the horizon: only the date error. */
  lemma ScenarioTooFarOut(today: Models.Day)
    ensures Validate(ReservationInput(Some(today + 106), "19:00", Some(2)), today, 10 * 3600)
         == Err(ReservationErrors(Some(DateTooFarOut), None, None, None))
  {
    SevenPm();
  }
}
