/**
 * lib/access.ts: reviews are hidden from a user until that user has written one.
 */
module Access {
  /** A user's review count as the caller passes it: missing (`null` or `undefined`) or a number. */
  datatype ReviewCount = Missing | Count(n: real)

  /** `shouldRedactReviews`: `!count || count < 1`. */
  function ShouldRedact(count: ReviewCount): bool {
    count.Missing? || count.n < 1.0
  }

  /** `redactText` */
  function RedactText(text: string, redact: bool): string {
    if !redact then text else ""
  }

  /** Reviews are shown exactly when the count is at least one; a missing count or zero hides them. */
  lemma RedactUnlessOneReview(count: ReviewCount)
    ensures !ShouldRedact(count) <==> count.Count? && count.n >= 1.0
    ensures ShouldRedact(Missing) && ShouldRedact(Count(0.0))
    ensures !ShouldRedact(Count(1.0)) && !ShouldRedact(Count(3.0))
  {
  }

  /** Gated text is the text itself for a user with a review, and empty for anyone else. */
  lemma RedactedText(text: string, count: ReviewCount)
    ensures RedactText(text, ShouldRedact(count)) == (if count.Count? && count.n >= 1.0 then text else "")
    ensures |RedactText(text, ShouldRedact(count))| <= |text|
  {
  }
}
