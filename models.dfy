/**
 * The rules the `Review`, `Reservation` and `Favorite` models declare: the
 * rating range and its star rendering, the party-size minimum, the
 * reservation status choices and default, and the one-row-per-(user,
 * restaurant) constraint of reviews and favourites.
 */
module Models {
  import opened Wrappers
  import Clock

  type UserId = int
  type RestaurantId = int

  /** A day ordinal, as `date.toordinal()`: adding n days adds n. */
  type Day = int

  // ---------------------------------------------------------------- Review

  /** The rating validators: `MinValueValidator(1)` and `MaxValueValidator(5)`. */
  predicate RatingValid(rating: int)
  {
    1 <= rating <= 5
  }

  datatype Review = Review(
    user: UserId,
    restaurant: RestaurantId,
    rating: int,
    comment: string,
    isApproved: bool,
    helpfulCount: nat)

  /** A review as first saved: approved, with no "helpful" votes yet. */
  function NewReview(user: UserId, restaurant: RestaurantId, rating: int, comment: string): (r: Review)
    ensures r.isApproved && r.helpfulCount == 0
    ensures r.user == user && r.restaurant == restaurant && r.rating == rating && r.comment == comment
  {
    Review(user, restaurant, rating, comment, true, 0)
  }

  /** `c * n` in Python: n copies of c, and the empty string when n <= 0. */
  function Repeat(c: char, n: int): (s: string)
    ensures |s| == if n > 0 then n else 0
    ensures forall k :: 0 <= k < |s| ==> s[k] == c
  {
    if n <= 0 then "" else [c] + Repeat(c, n - 1)
  }

  /**
   * `Review.get_star_display`: `'★' * rating + '☆' * (5 - rating)`.  Each
   * position before `rating` holds a filled star and every later one a
   * hollow star; a negative count contributes nothing.
   */
  function StarDisplay(rating: int): (s: string)
    ensures |s| == (if rating > 0 then rating else 0) + (if rating < 5 then 5 - rating else 0)
    ensures forall k :: 0 <= k < |s| ==> s[k] == if k < rating then '★' else '☆'
  {
    Repeat('★', rating) + Repeat('☆', 5 - rating)
  }

  /**
   * For a rating 0..5 the display is always five characters: `rating`
   * filled stars followed by the hollow ones, so every filled star comes
   * before every hollow star.
   */
  lemma StarDisplayShape(rating: int)
    requires 0 <= rating <= 5
    ensures |StarDisplay(rating)| == 5
    ensures forall k :: 0 <= k < 5 ==> StarDisplay(rating)[k] == if k < rating then '★' else '☆'
    ensures forall i, j :: 0 <= i < 5 && 0 <= j < 5 && StarDisplay(rating)[i] == '☆' && StarDisplay(rating)[j] == '★' ==> j < i
  {
    var f, h := Repeat('★', rating), Repeat('☆', 5 - rating);
    forall k | 0 <= k < 5 ensures (f + h)[k] == if k < rating then '★' else '☆' {
      if k < rating { assert (f + h)[k] == f[k]; } else { assert (f + h)[k] == h[k - rating]; }
    }
  }

  /**
   * Outside 0..5 Python's repetition of a negative count gives "", so a
   * rating above 5 shows `rating` filled stars and a negative one shows
   * `5 - rating` hollow stars.
   */
  lemma StarDisplayOutOfRange(rating: int)
    requires rating < 0 || rating > 5
    ensures rating > 5 ==> StarDisplay(rating) == Repeat('★', rating)
    ensures rating < 0 ==> StarDisplay(rating) == Repeat('☆', 5 - rating)
    ensures |StarDisplay(rating)| == if rating > 5 then rating else 5 - rating
  {
    if rating > 5 {
      assert Repeat('☆', 5 - rating) == "";
    } else {
      assert Repeat('★', rating) == "";
    }
  }

  // ----------------------------------------------------------- Reservation

  /** `Reservation.STATUS_CHOICES`; the field is stored as its key string. */
  datatype Status = Confirmed | Cancelled

  /** The stored key of a status choice. */
  function StatusKey(s: Status): (k: string)
    ensures |k| <= 20
  {
    match s
    case Confirmed => "confirmed"
    case Cancelled => "cancelled"
  }

  /** The choices validation of the status column: only the two keys are values. */
  function StatusFromKey(k: string): (r: Option<Status>)
    ensures r.Some? ==> StatusKey(r.value) == k
    ensures r.None? ==> k != StatusKey(Confirmed) && k != StatusKey(Cancelled)
  {
    if k == "confirmed" then Some(Confirmed)
    else if k == "cancelled" then Some(Cancelled)
    else None
  }

  /** The stored keys and the statuses correspond one to one. */
  lemma StatusKeyRoundTrip(s: Status, k: string)
    ensures StatusFromKey(StatusKey(s)) == Some(s)
    ensures StatusFromKey(k) == Some(s) <==> k == StatusKey(s)
    ensures StatusFromKey(k).Some? <==> k in {"confirmed", "cancelled"}
  {
  }

  /** The field's `default='confirmed'`. */
  const DefaultStatus: Status := Confirmed

  datatype Reservation = Reservation(
    user: UserId,
    restaurant: RestaurantId,
    date: Day,
    time: Clock.Minute,
    numberOfPeople: int,
    status: Status)

  /** The `number_of_people` validator `MinValueValidator(1)`; there is no upper bound. */
  predicate PartySizeValid(n: int)
  {
    n >= 1
  }

  /**
   * The field-level rules of a reservation row that its type does not
   * already enforce: the status is one of the choices by construction
   * (`StatusKeyRoundTrip`), so only the party-size validator remains.
   */
  predicate ReservationValid(r: Reservation)
  {
    PartySizeValid(r.numberOfPeople)
  }

  /** A reservation as first saved: its status is the default, confirmed. */
  function NewReservation(user: UserId, restaurant: RestaurantId, date: Day, time: Clock.Minute, people: int): (r: Reservation)
    ensures r.status == Confirmed
    ensures r.user == user && r.restaurant == restaurant && r.date == date && r.time == time && r.numberOfPeople == people
    ensures ReservationValid(r) <==> people >= 1
  {
    Reservation(user, restaurant, date, time, people, DefaultStatus)
  }

  // ------------------------------------------------------------- Favorite

  datatype Favorite = Favorite(user: UserId, restaurant: RestaurantId)

  // ------------------------------------------------------ unique_together

  /** The `unique_together = ['user', 'restaurant']` key of a row. */
  datatype Pair = Pair(user: UserId, restaurant: RestaurantId)

  function ReviewKey(r: Review): Pair { Pair(r.user, r.restaurant) }
  function FavoriteKey(f: Favorite): Pair { Pair(f.user, f.restaurant) }

  /** No two rows of the table share a key. */
  predicate UniqueTogether<T>(rows: seq<T>, key: T -> Pair)
  {
    forall i, j :: 0 <= i < j < |rows| ==> key(rows[i]) != key(rows[j])
  }

  /** Some row of the table already has this key. */
  predicate HasKey<T>(rows: seq<T>, key: T -> Pair, k: Pair)
  {
    exists i :: 0 <= i < |rows| && key(rows[i]) == k
  }

  /**
   * Saving a new row: the database refuses a row whose key is already
   * present (an integrity error), and then the table is unchanged;
   * otherwise the row is added.
   */
  function Insert<T>(rows: seq<T>, key: T -> Pair, row: T): (r: (seq<T>, bool))
    ensures r.1 <==> !HasKey(rows, key, key(row))
    ensures r.1 ==> r.0 == rows + [row]
    ensures !r.1 ==> r.0 == rows
    ensures UniqueTogether(rows, key) ==> UniqueTogether(r.0, key)
  {
    if HasKey(rows, key, key(row)) then (rows, false) else (rows + [row], true)
  }

  /**
   * The review table keeps at most one review per user and restaurant: a
   * second review by the same user of the same restaurant is refused and
   * the table stays as it was.
   */
  lemma ReviewsUnique(reviews: seq<Review>, r: Review)
    requires UniqueTogether(reviews, ReviewKey)
    ensures UniqueTogether(Insert(reviews, ReviewKey, r).0, ReviewKey)
    ensures (exists i :: 0 <= i < |reviews| && reviews[i].user == r.user && reviews[i].restaurant == r.restaurant)
      <==> Insert(reviews, ReviewKey, r) == (reviews, false)
  {
    if exists i :: 0 <= i < |reviews| && reviews[i].user == r.user && reviews[i].restaurant == r.restaurant {
      var i :| 0 <= i < |reviews| && reviews[i].user == r.user && reviews[i].restaurant == r.restaurant;
      assert ReviewKey(reviews[i]) == ReviewKey(r);
    }
  }

  /**
   * The favourite table keeps at most one favourite per user and
   * restaurant: marking the same restaurant again is refused and the table
   * stays as it was.
   */
  lemma FavoritesUnique(favorites: seq<Favorite>, f: Favorite)
    requires UniqueTogether(favorites, FavoriteKey)
    ensures UniqueTogether(Insert(favorites, FavoriteKey, f).0, FavoriteKey)
    ensures f in favorites <==> Insert(favorites, FavoriteKey, f) == (favorites, false)
    ensures f !in favorites ==> Insert(favorites, FavoriteKey, f) == (favorites + [f], true)
  {
    if f in favorites {
      var i :| 0 <= i < |favorites| && favorites[i] == f;
      assert FavoriteKey(favorites[i]) == FavoriteKey(f);
    }
  }
}
