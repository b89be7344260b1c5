/**
 * `ReviewForm`: the rating and comment a user submits for a restaurant.
 * Each field is first cleaned by the form field (a required integer, a
 * required text that the field strips of surrounding whitespace and in
 * which it refuses the null character U+0000) and then by the form's own
 * `clean_rating` / `clean_comment`.
 */
module ReviewForm {
  import opened Wrappers
  import opened Text
  import Models

  /** The least number of characters a comment must have once stripped. */
  const MinCommentLength := 10

  datatype ReviewError =
    | Required          // the form field's own "this field is required"
    | NullCharacter     // the text field's validator against U+0000
    | RatingOutOfRange  // raised by clean_rating
    | CommentTooShort   // raised by clean_comment

  /**
   * `clean_comment`: an error when the comment has fewer than ten
   * characters after stripping; otherwise the comment exactly as it was
   * given, NOT stripped.
   */
  function CleanComment(comment: string): (r: Result<string, ReviewError>)
    ensures r.Err? <==> |Strip(comment)| < MinCommentLength
    ensures r.Err? ==> r.error == CommentTooShort
    ensures r.Ok? ==> r.value == comment
  {
    if |Strip(comment)| < MinCommentLength then Err(CommentTooShort) else Ok(comment)
  }

  /**
   * `clean_rating`: a missing rating, 0, or a rating outside 1..5 is an
   * error; exactly the ratings the model's validators allow come through
   * unchanged.
   */
  function CleanRating(rating: Option<int>): (r: Result<int, ReviewError>)
    ensures r.Ok? <==> rating.Some? && Models.RatingValid(rating.value)
    ensures r.Ok? ==> r.value == rating.value
    ensures r.Err? ==> r.error == RatingOutOfRange
  {
    if rating.None? || rating.value == 0 || rating.value < 1 || rating.value > 5 then Err(RatingOutOfRange)
    else Ok(rating.value)
  }

  /** What the user submitted; a blank rating is None. */
  datatype ReviewInput = ReviewInput(rating: Option<int>, comment: string)

  /** The cleaned values the form hands on to be saved as a `Review`. */
  datatype ReviewFields = ReviewFields(rating: int, comment: string)

  /** One error (or none) per field, as the form collects them. */
  datatype ReviewErrors = ReviewErrors(rating: Option<ReviewError>, comment: Option<ReviewError>)

  /** The rating field: the required check, then `clean_rating`. */
  function RatingField(rating: Option<int>): (r: Result<int, ReviewError>)
    ensures r.Ok? <==> rating.Some? && Models.RatingValid(rating.value)
    ensures r.Ok? ==> r.value == rating.value
    ensures r == Err(Required) <==> rating.None?
    ensures r == Err(RatingOutOfRange) <==> rating.Some? && !Models.RatingValid(rating.value)
  {
    if rating.None? then Err(Required) else CleanRating(rating)
  }

  /**
   * The comment field: the text field strips the value, a value left empty
   * is "required", and one holding the null character is refused by the
   * field's validator; `clean_comment` then sees the stripped value.
   * Since U+0000 is not whitespace, stripping never removes it, so the
   * null-character error depends only on the submitted text.
   */
  function CommentField(comment: string): (r: Result<string, ReviewError>)
    ensures r.Ok? <==> |Strip(comment)| >= MinCommentLength && '\0' !in comment
    ensures r.Ok? ==> r.value == Strip(comment)
    ensures r == Err(Required) <==> forall k :: 0 <= k < |comment| ==> IsSpace(comment[k])
    ensures r == Err(NullCharacter) <==> '\0' in comment
    ensures r == Err(CommentTooShort) <==> 0 < |Strip(comment)| < MinCommentLength && '\0' !in comment
  {
    StripIdempotent(comment, IsSpace);
    StripEmpty(comment, IsSpace);
    StripKeeps(comment, IsSpace, '\0');
    var stripped := Strip(comment);
    if stripped == "" then Err(Required)
    else if '\0' in stripped then Err(NullCharacter)
    else CleanComment(stripped)
  }

  /**
   * `is_valid()` of the review form. The form accepts exactly a rating in
   * 1..5 with a comment of at least ten characters once stripped and no
   * null character, and then hands on the stripped comment; a comment of
   * only whitespace is "required", one with 1..9 characters left is too
   * short.
   */
  function ValidateReview(input: ReviewInput): (r: Result<ReviewFields, ReviewErrors>)
    ensures r.Ok? <==> input.rating.Some? && Models.RatingValid(input.rating.value)
                       && |Strip(input.comment)| >= MinCommentLength && '\0' !in input.comment
    ensures r.Ok? ==> r.value == ReviewFields(input.rating.value, Strip(input.comment))
    ensures r.Err? ==> r.error.rating.Some? || r.error.comment.Some?
    ensures r.Err? ==> (r.error.rating == Some(Required) <==> input.rating.None?)
    ensures r.Err? ==> (r.error.rating.None? <==> input.rating.Some? && Models.RatingValid(input.rating.value))
    ensures r.Err? ==> (r.error.rating == Some(RatingOutOfRange) <==>
                        input.rating.Some? && !Models.RatingValid(input.rating.value))
    ensures r.Err? ==> (r.error.comment.None? <==>
                        |Strip(input.comment)| >= MinCommentLength && '\0' !in input.comment)
    ensures r.Err? ==> (r.error.comment == Some(Required) <==>
                        forall k :: 0 <= k < |input.comment| ==> IsSpace(input.comment[k]))
    ensures r.Err? ==> (r.error.comment == Some(NullCharacter) <==> '\0' in input.comment)
    ensures r.Err? ==> (r.error.comment == Some(CommentTooShort) <==>
                        0 < |Strip(input.comment)| < MinCommentLength && '\0' !in input.comment)
  {
    var rating := RatingField(input.rating);
    var comment := CommentField(input.comment);
    if rating.Ok? && comment.Ok? then Ok(ReviewFields(rating.value, comment.value))
    else Err(ReviewErrors(ErrorOf(rating), ErrorOf(comment)))
  }

  /** A comment holding U+0000 is refused by the field even when it is long enough. */
  lemma NullCharacterRefused(rating: int, comment: string)
    requires Models.RatingValid(rating) && '\0' in comment
    ensures ValidateReview(ReviewInput(Some(rating), comment)) == Err(ReviewErrors(None, Some(NullCharacter)))
  {
  }

  /**
   * A rating the form accepts is one the `Review` model's validators
   * accept, and its star string has five characters: `rating` filled stars,
   * then hollow ones.
   */
  lemma AcceptedRatingIsValid(input: ReviewInput)
    requires ValidateReview(input).Ok?
    ensures Models.RatingValid(ValidateReview(input).value.rating)
    ensures |Models.StarDisplay(ValidateReview(input).value.rating)| == 5
    ensures forall k :: 0 <= k < 5 ==>
      Models.StarDisplay(ValidateReview(input).value.rating)[k] == if k < ValidateReview(input).value.rating then '★' else '☆'
  {
    Models.StarDisplayShape(ValidateReview(input).value.rating);
  }
}
