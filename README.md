# Restaurant booking and review validation, in Dafny

A model of the server-side validation rules of a restaurant discovery and
booking web application:

- **The reservation form.** The table of bookable start times (`TIME_CHOICES`,
  every half hour from 18:00 to 21:00). Also the date checks (not in the past,
  at most 90 days ahead), the time checks (present, "HH:MM", within opening
  hours) and the cross-field rule that a booking for today must start after the
  current time.
- **The review form.** The rating must be 1 to 5. The comment must have at
  least ten characters once surrounding whitespace is stripped.
- **The model rules.** The star string of a review, the rating bounds, the
  party-size minimum, the reservation status choices and their default, and the
  one-review and one-favourite-per-user-and-restaurant constraints.

Representation:

- A time of day is a count of minutes since midnight (`Clock.Minute`).
- A date is a day ordinal (as `date.toordinal()`), so "90 days later" is `+ 90`.
- "Now" is split into `today` (a day ordinal) and `now` (seconds since midnight).
  Both are parameters, because the form reads the clock directly.
- Validation errors are tags (`ReservationForm.ReservationError`,
  `ReviewForm.ReviewError`), not the application's message texts.

Modules:
`Wrappers` (Option, Result),
`Clock` (`strftime('%H:%M')` and `strptime(..., '%H:%M')`),
`Text` (Python's `str.strip`),
`Models` (restaurants/models.py),
`ReviewForm` and `ReservationForm` (restaurants/forms.py).

The form functions follow the framework's field-by-field order. Each field is
first checked by its form field: the required check, the choice-membership check
of `reservation_time`, and the stripping of the comment text. The comment's text
field also refuses a value that contains the null character U+0000. Then the form's
`clean_<field>` method runs. `clean` sees only the fields that passed. So
`ReservationForm.Validate` and `ReviewForm.ValidateReview` report one error (or
none) per field, not only the first error overall.

Three consequences are proved:

- A party of twelve is accepted. Only the model's `MinValueValidator(1)` applies;
  the 1..10 list is just the widget's options (`ReservationForm.ScenarioLargeParty`).
- Through the form, none of `clean_reservation_time`'s own errors can occur. The
  choice field already admits only the seven offered values
  (`ReservationForm.GuardedErrorsUnreachable`).
- `clean`'s string branch is never reached from the form: it always receives the
  time object that `clean_reservation_time` returned, so its format error is never
  reported (`ReservationForm.CrossFieldError`).

## Model

| member | source | states |
|---|---|---|
| `ReservationForm.BuildTimeChoices` | restaurants/forms.py:47-57 | the nested hour/minute loop with its `break` at 21:30 produces exactly the seven pairs "18:00" … "21:00" of the choice table |
| `ReservationForm.ChoiceReads` | restaurants/forms.py:51-57 | entry i of the table reads back with "%H:%M" as 18:00 plus i half hours |
| `ReservationForm.ChoiceEntry` | restaurants/forms.py:55-57 | entry i is the `strftime('%H:%M')` rendering of 18:00 plus i half hours, used as both value and label |
| `ReservationForm.ChoiceTableAscending` | restaurants/forms.py:51-57 | the entries ascend: entry j names a time 30·(j − i) minutes after entry i |
| `ReservationForm.LateSlotNotOffered` | restaurants/forms.py:53-54 | "21:30", the time the `break` skips, reads as a valid time but is not an offered value |
| `ReservationForm.SlotsAreGrid` | restaurants/forms.py:48-54 | a start time is one of the slots iff it lies on the half-hour grid between 18:00 and 21:00 inclusive |
| `ReservationForm.ChoiceIsGridTime` | restaurants/forms.py:59-63 | every offered value reads as "HH:MM" and names a grid time |
| `ReservationForm.GridTimeIsChoice` | restaurants/forms.py:59-63 | the "HH:MM" string of every grid time is an offered value |
| `ReservationForm.ChoiceValues` | restaurants/forms.py:59-63 | a submitted string is an offered choice iff it reads as "HH:MM" and names a grid time |
| `ReservationForm.CleanReservationDate` | restaurants/forms.py:84-99 | a missing date, a date before today and a date after today + 90 each give their own error; otherwise the date comes back unchanged, so today and today + 90 are both accepted |
| `ReservationForm.CleanReservationTime` | restaurants/forms.py:101-121 | the empty string, an unreadable value, a time before 18:00 and a time after 21:00 each give their own error; otherwise the result is the time the string names, and the string is that time's rendering |
| `ReservationForm.ChoicesPassCleanTime` | restaurants/forms.py:101-121 | every offered value passes `clean_reservation_time` and yields its own slot |
| `ReservationForm.TimeChoiceField` | restaurants/forms.py:59-63 | the time field accepts exactly the offered values, as grid times; "required" iff the value is empty, "invalid choice" iff it is non-empty and not offered, and no other error |
| `ReservationForm.Clean` | restaurants/forms.py:123-145 | no cross-field error without both a date and a time; the same-day error iff the date is today and the time is at or before now; the format error iff a non-empty string time does not read as "HH:MM" |
| `ReservationForm.CleanOtherDay` | restaurants/forms.py:136-140 | a date other than today never draws the same-day error |
| `ReservationForm.Validate` | restaurants/forms.py:84-145 | the form is valid iff the date is within today..today + 90, the time is an offered slot, the party has at least one person, and a booking for today starts after now; a valid form hands on exactly those values; an invalid form reports at least one error |
| `ReservationForm.FieldErrors` | restaurants/forms.py:59-99 | each field's error is reported exactly when its condition holds: a blank date, a past date, a date beyond the horizon, a blank time, a value that is not offered, a blank party size, and a party below one (the party-size validator of restaurants/models.py:101); a field reports no error iff its value passes: a date in today..today + 90, an offered time, a party of at least one |
| `ReservationForm.DateField` | restaurants/forms.py:84-99 | the required date field followed by `clean_reservation_date`: exactly the dates in today..today + 90 pass, unchanged; a blank date is "required", a date before today is "in the past", and a date after today + 90 is "too far out" |
| `ReservationForm.PeopleField` | restaurants/models.py:101 | the required party-size field followed by `MinValueValidator(1)`: exactly a present party of at least one passes, unchanged and without an upper bound; blank is "required", below one is too small |
| `ReservationForm.CrossFieldError` | restaurants/forms.py:123-145 | `clean`'s error appears only when date and time both passed, it is either absent or the same-day error (never the format error), and it is the same-day error iff the booking is for today at a slot not after now |
| `ReservationForm.GuardedErrorsUnreachable` | restaurants/forms.py:84-121 | through the form, the "missing date" error and all four errors of `clean_reservation_time` are never reported |
| `ReservationForm.AcceptedBookingIsValid` | restaurants/models.py:99-102 | an accepted booking saved as a new reservation satisfies the party-size validator, has status confirmed, a date within the horizon and a grid time whose rendering is the submitted string |
| `ReservationForm.ScenarioSameDayLater` | restaurants/forms.py:136-140 | on any day at 10:00, 19:00 the same day for two is accepted |
| `ReservationForm.ScenarioSameDayElapsed` | restaurants/forms.py:136-140 | on any day at 20:00, 19:00 the same day draws only the same-day error |
| `ReservationForm.ScenarioBeforeOpening` | restaurants/forms.py:113-115 | "17:30" is refused by the choice field; `clean_reservation_time` alone would call it before opening |
| `ReservationForm.ScenarioLargeParty` | restaurants/models.py:101 | a party of 12 is accepted as it is |
| `ReservationForm.ScenarioTooFarOut` | restaurants/forms.py:94-97 | a date 106 days ahead (1 June to 15 September) draws only the horizon error |
| `ReviewForm.CleanComment` | restaurants/forms.py:32-36 | an error iff the stripped comment has fewer than 10 characters; otherwise the comment comes back unstripped |
| `ReviewForm.CleanRating` | restaurants/forms.py:38-42 | exactly a present rating within 1..5 is accepted, unchanged; a missing rating, 0 and anything out of range are errors |
| `ReviewForm.RatingField` | restaurants/forms.py:38-42 | the required rating field followed by `clean_rating`: exactly a present rating in 1..5 passes, unchanged; blank is "required", anything else out of range |
| `ReviewForm.CommentField` | restaurants/models.py:66 | the comment's text field (strip, required, no U+0000) followed by `clean_comment`: it passes iff the stripped text has at least 10 characters and no null character, and hands on the stripped text; all-whitespace is "required", a null character anywhere is refused, 1..9 characters left is too short |
| `ReviewForm.ValidateReview` | restaurants/forms.py:8-42 | the review form is valid iff the rating is within 1..5 and the stripped comment has at least 10 characters and no null character, and then it hands on the stripped comment; the rating has no error iff it is valid and "out of range" iff it is present but outside 1..5; the comment has no error iff it passes; an all-whitespace comment is "required", one holding U+0000 draws the null-character error, and one with 1..9 characters left is too short |
| `ReviewForm.NullCharacterRefused` | restaurants/models.py:66 | with a valid rating, a comment holding U+0000 draws only the null-character error, whatever its length |
| `ReviewForm.AcceptedRatingIsValid` | restaurants/models.py:62-65 | a rating the form accepts satisfies the model's validators, and its star string has five characters: ★ at position k iff k < rating, ☆ elsewhere |
| `Models.StarDisplay` | restaurants/models.py:84-86 | `get_star_display`: position k holds ★ iff k < rating, and the length is max(rating, 0) + max(5 − rating, 0) |
| `Models.RatingValid` | restaurants/models.py:62-65 | the rating validators: 1 ≤ rating ≤ 5 |
| `Models.PartySizeValid` | restaurants/models.py:101 | the party-size validator: at least 1, no upper bound |
| `Models.StatusFromKey` | restaurants/models.py:90-93 | the choices check of the status column: a key it accepts is the stored key of the status it returns, and it does not accept any other key |
| `Models.Repeat` | restaurants/models.py:86 | Python's string repetition: n copies of the character, and nothing for n ≤ 0 |
| `Models.StarDisplayShape` | restaurants/models.py:84-86 | for a rating 0..5 the star string has length 5, position k is ★ iff k < rating, and every ★ precedes every ☆ |
| `Models.StarDisplayOutOfRange` | restaurants/models.py:86 | outside 0..5 the string is all ★ (rating > 5) or all ☆ (rating < 0), with the length that implies |
| `Models.StatusKeyRoundTrip` | restaurants/models.py:90-93 | the two statuses and the two stored keys "confirmed" and "cancelled" correspond one to one; no other key is a status |
| `Models.NewReservation` | restaurants/models.py:101-102 | a new reservation has status confirmed, and it is valid iff its party size is at least 1 |
| `Models.NewReview` | restaurants/models.py:69-70 | a new review is approved and has no helpful votes |
| `Models.Insert` | restaurants/models.py:78 | a row whose (user, restaurant) pair is already present is refused and the table is unchanged; otherwise the row is appended; uniqueness of the pair is preserved |
| `Models.ReviewsUnique` | restaurants/models.py:78 | a second review by the same user of the same restaurant is refused, leaving the table as it was; the table stays duplicate-free |
| `Models.FavoritesUnique` | restaurants/models.py:123 | a favourite already present is refused, a new one is appended; the table stays duplicate-free |
| `Clock.Format` | restaurants/forms.py:55-56 | `strftime('%H:%M')`: five characters, the zero-padded hour, a colon, the zero-padded minute |
| `Clock.Parse` | restaurants/forms.py:109 | `strptime(s, '%H:%M')`: a string it accepts is two digits of hour, a colon and two digits of minute, and those digits are the hour and minute of the result |
| `Clock.ParseFormat` | restaurants/forms.py:109 | reading back the "%H:%M" rendering of a time gives that time |
| `Clock.FormatParse` | restaurants/forms.py:109 | a string that reads as a time is exactly that time's "%H:%M" rendering |
| `Clock.FormatInjective` | restaurants/forms.py:55-56 | two times have the same rendering iff they are equal |
| `Text.IsSpace` | restaurants/forms.py:34 | the characters for which `str.isspace()` holds, the class `str.strip()` removes |
| `Text.SkipForward` | restaurants/forms.py:34 | the forward scan of `strip` stays between its start and the end of the string |
| `Text.SkipBackward` | restaurants/forms.py:34 | the backward scan of `strip` stays between its lower bound and its start |
| `Text.Strip` | restaurants/forms.py:34 | `str.strip()`: no longer than the input, neither starts nor ends with whitespace, and empty iff the input is all whitespace |
| `Text.SkipForwardSpec` | restaurants/forms.py:34 | the forward scan passes over only whitespace and stops at the first non-whitespace character or the end |
| `Text.SkipBackwardSpec` | restaurants/forms.py:34 | the backward scan passes over only whitespace and stops after the last non-whitespace character or at its lower bound |
| `Text.StripSlice` | restaurants/forms.py:34 | only whitespace is cut off on either side, and the kept middle, when not empty, neither starts nor ends with whitespace |
| `Text.StripIdempotent` | restaurants/forms.py:34 | stripping twice equals stripping once |
| `Text.StripEmpty` | restaurants/forms.py:34 | the stripped string is empty iff the input is all whitespace |
| `Text.StripKeeps` | restaurants/forms.py:34 | a character that is not whitespace occurs in the stripped string iff it occurs in the input |

## Left out

- Request handling, routing, pagination, flash messages, sessions, the account
  models and the admin configuration: framework plumbing with no validation logic.
- `Restaurant.get_average_rating`: a database aggregate followed by floating-point
  rounding.
- Widget attributes, labels and message texts. This includes the date input's `min`
  attribute, which is computed once when the module is imported and only affects
  rendering. It also includes the comment box's `maxlength`: the `comment` column has
  no maximum length.
- Time zones and the clock: "now" is one snapshot passed in as `today` and `now`.
  The form reads the clock separately at each check.
- Converting submitted text to typed values: the date field's parsing of the date
  string and the integer parsing of rating and party size. The inputs are already
  typed, or None when blank.
- Clock.Parse: accepts exactly two-digit hours 00..23 and two-digit minutes 00..59.
  `strptime` also takes one-digit fields and non-ASCII decimal digits. Through the
  form this makes no difference, since only the seven offered strings reach it.
- ReservationForm.CleanReservationDate: does not model the `OverflowError` of `today + 90 days`
  within 90 days of the last representable date (year 9999).
- The database backend's integer range validators on `IntegerField` columns.
- Cascade deletes, automatic timestamps, default ordering, image and URL fields.
- Reservation capacity and double booking: the application has no such logic.
- Status changes after creation (for example, cancelling): no code in the modelled
  files performs them, and status transitions are out of scope. The model states
  only the status choices and the default.
- `Restaurant.opening_time` / `closing_time`: the form does not consult them. It
  uses the fixed window 18:00 to 21:00.
