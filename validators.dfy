/**
 * lib/validators.ts: the request-body schemas for creating and updating a review,
 * voting and reporting, as parsers. Each string field is trimmed first and its
 * bounds are checked on the trimmed text; a successful parse yields the trimmed
 * values. Keys the schemas do not name are ignored.
 */
module Validators {
  import opened Common
  import opened Text
  import TermScanner

  /** One field of the request body as the schema receives it; `Other` is `null`, a boolean, an array or an object. */
  datatype Field = Absent | Str(s: string) | Num(n: real) | Other

  // ---------------------------------------------------------------------------
  // semesterRegex = /^(20\d{2})-(Fall|Winter|Spring|Summer)$/

  /** The alternatives of the season group, tried in this order. */
  const Seasons: seq<string> := ["Fall", "Winter", "Spring", "Summer"]

  /** `20\d{2}` at the start of `s`. */
  predicate YearPrefix(s: string) {
    |s| >= 4 && s[0] == '2' && s[1] == '0' && IsDigit(s[2]) && IsDigit(s[3])
  }

  /**
   * The two groups of a match of the whole string: the year, then the season. The
   * pattern is anchored at both ends and has no `i` flag, so the season must be one
   * of the four names exactly as written.
   */
  function SemesterGroups(s: string): (r: Option<(string, string)>)
    ensures r.Some? ==> s == r.value.0 + "-" + r.value.1
    ensures r.Some? ==> YearPrefix(r.value.0) && |r.value.0| == 4 && r.value.1 in Seasons
    ensures r.None? ==> !(YearPrefix(s) && |s| >= 5 && s[4] == '-' && s[5..] in Seasons)
  {
    if YearPrefix(s) && |s| >= 5 && s[4] == '-' && s[5..] in Seasons then
      assert s == s[..4] + "-" + s[5..];
      Some((s[..4], s[5..]))
    else None
  }

  /** Every year and season put together as `<year>-<Season>` is matched, with the same two groups back. */
  lemma SemesterGroupsRoundTrip(year: string, season: string)
    requires |year| == 4 && YearPrefix(year) && season in Seasons
    ensures SemesterGroups(year + "-" + season) == Some((year, season))
  {
    var s := year + "-" + season;
    assert s[..4] == year && s[5..] == season;
  }

  /** The semesters the schema accepts are exactly the terms the degree-plan scanner produces. */
  lemma SemesterIsScannerTerm(s: string)
    ensures SemesterGroups(s).Some? <==> TermScanner.IsTerm(s)
  {
  }

  /** A semester written season first, as in "Fall 2025", is rejected. */
  lemma SeasonFirstRejected(season: string, year: string)
    requires season in Seasons
    ensures SemesterGroups(season + " " + year) == None
  {
    var s := season + " " + year;
    assert s[0] == season[0];
  }

  // ---------------------------------------------------------------------------
  // Field rules

  /** `z.string().trim().min(lo).max(hi)`: a string whose trimmed form has `lo` to `hi` characters; yields that form. */
  function TrimmedText(f: Field, lo: nat, hi: nat): (r: Option<string>)
    ensures r.Some? <==> f.Str? && lo <= |Trim(f.s)| <= hi
    ensures r.Some? ==> r.value == Trim(f.s) && Trimmed(r.value)
  {
    if f.Str? && lo <= |Trim(f.s)| <= hi then Some(Trim(f.s))
    else None
  }

  /** A string with no whitespace at either end: one that `trim` leaves as it is. */
  predicate Trimmed(s: string) {
    s == [] || (!IsSpace(s[0]) && !IsSpace(s[|s| - 1]))
  }

  /** The same rule followed by `.optional()`: an absent field passes as `None`, any other field must pass the rule. */
  function OptionalText(f: Field, lo: nat, hi: nat): (r: Option<Option<string>>)
    ensures f.Absent? ==> r == Some(None)
    ensures !f.Absent? ==> (r.Some? <==> TrimmedText(f, lo, hi).Some?)
    ensures r.Some? && r.value.Some? ==> r.value == TrimmedText(f, lo, hi)
  {
    if f.Absent? then Some(None)
    else match TrimmedText(f, lo, hi)
      case None => None
      case Some(t) => Some(Some(t))
  }

  predicate IsInteger(x: real) {
    x.Floor as real == x
  }

  /** `z.number().int().min(1).max(5)` */
  function Rating(f: Field): (r: Option<int>)
    ensures r.Some? <==> f.Num? && IsInteger(f.n) && 1.0 <= f.n <= 5.0
    ensures r.Some? ==> 1 <= r.value <= 5 && r.value as real == f.n
  {
    if f.Num? && IsInteger(f.n) && 1.0 <= f.n <= 5.0 then Some(f.n.Floor) else None
  }

  /** The same rule followed by `.optional()`. */
  function OptionalRating(f: Field): (r: Option<Option<int>>)
    ensures f.Absent? ==> r == Some(None)
    ensures !f.Absent? ==> (r.Some? <==> Rating(f).Some?)
    ensures r.Some? && r.value.Some? ==> r.value == Rating(f)
  {
    if f.Absent? then Some(None)
    else match Rating(f)
      case None => None
      case Some(n) => Some(Some(n))
  }

  // ---------------------------------------------------------------------------
  // createReviewSchema

  datatype CreateInput = CreateInput(
    courseCode: Field, semester: Field, instructorName: Field, ta: Field, content: Field,
    ratingContent: Field, ratingTeaching: Field, ratingGrading: Field, ratingWorkload: Field)

  datatype Review = Review(
    courseCode: string, semester: string, instructorName: Option<string>, ta: Option<string>, content: string,
    ratingContent: int, ratingTeaching: int, ratingGrading: int, ratingWorkload: int)

  /** The bounds a parsed review satisfies. */
  predicate ValidReview(r: Review) {
    Trimmed(r.courseCode) && 3 <= |r.courseCode| <= 16
    && SemesterGroups(r.semester).Some?
    && (r.instructorName.Some? ==> Trimmed(r.instructorName.value) && 1 <= |r.instructorName.value| <= 100)
    && (r.ta.Some? ==> Trimmed(r.ta.value) && 1 <= |r.ta.value| <= 100)
    && Trimmed(r.content) && 50 <= |r.content| <= 2000
    && 1 <= r.ratingContent <= 5 && 1 <= r.ratingTeaching <= 5
    && 1 <= r.ratingGrading <= 5 && 1 <= r.ratingWorkload <= 5
  }

  /** `createReviewSchema.safeParse(i)`: the parsed review when every field passes its rule, else `None`. */
  function ParseCreate(i: CreateInput): (r: Option<Review>)
    ensures r.Some? ==> ValidReview(r.value)
    ensures r.Some? ==> i.courseCode.Str? && r.value.courseCode == Trim(i.courseCode.s)
    ensures r.Some? ==> i.semester == Str(r.value.semester)
    ensures r.Some? ==> i.content.Str? && r.value.content == Trim(i.content.s)
    ensures r.Some? <==>
      TrimmedText(i.courseCode, 3, 16).Some?
      && i.semester.Str? && SemesterGroups(i.semester.s).Some?
      && OptionalText(i.instructorName, 1, 100).Some? && OptionalText(i.ta, 1, 100).Some?
      && TrimmedText(i.content, 50, 2000).Some?
      && Rating(i.ratingContent).Some? && Rating(i.ratingTeaching).Some?
      && Rating(i.ratingGrading).Some? && Rating(i.ratingWorkload).Some?
  {
    var code := TrimmedText(i.courseCode, 3, 16);
    var name := OptionalText(i.instructorName, 1, 100);
    var ta := OptionalText(i.ta, 1, 100);
    var content := TrimmedText(i.content, 50, 2000);
    var rc, rt, rg, rw := Rating(i.ratingContent), Rating(i.ratingTeaching), Rating(i.ratingGrading), Rating(i.ratingWorkload);
    if code.Some? && i.semester.Str? && SemesterGroups(i.semester.s).Some? && name.Some? && ta.Some? && content.Some?
      && rc.Some? && rt.Some? && rg.Some? && rw.Some?
    then Some(Review(code.value, i.semester.s, name.value, ta.value, content.value, rc.value, rt.value, rg.value, rw.value))
    else None
  }

  function TextField(s: Option<string>): Field {
    if s.Some? then Str(s.value) else Absent
  }

  /** The request body that sends a review's own values. */
  function CreateBody(r: Review): CreateInput {
    CreateInput(Str(r.courseCode), Str(r.semester), TextField(r.instructorName), TextField(r.ta), Str(r.content),
      Num(r.ratingContent as real), Num(r.ratingTeaching as real), Num(r.ratingGrading as real), Num(r.ratingWorkload as real))
  }

  /** A string already trimmed and within the bounds is accepted as it is. */
  lemma TextRoundTrip(s: string, lo: nat, hi: nat)
    requires Trimmed(s) && lo <= |s| <= hi
    ensures TrimmedText(Str(s), lo, hi) == Some(s)
  {
    TrimKeeps(s);
  }

  lemma OptionalTextRoundTrip(s: Option<string>, lo: nat, hi: nat)
    requires s.Some? ==> Trimmed(s.value) && lo <= |s.value| <= hi
    ensures OptionalText(TextField(s), lo, hi) == Some(s)
  {
    if s.Some? {
      TextRoundTrip(s.value, lo, hi);
    }
  }

  /** Every review within the bounds is accepted as sent and comes back unchanged. */
  lemma CreateRoundTrip(r: Review)
    requires ValidReview(r)
    ensures ParseCreate(CreateBody(r)) == Some(r)
  {
    var b := CreateBody(r);
    TextRoundTrip(r.courseCode, 3, 16);
    TextRoundTrip(r.content, 50, 2000);
    OptionalTextRoundTrip(r.instructorName, 1, 100);
    OptionalTextRoundTrip(r.ta, 1, 100);
    RatingRoundTrip(r.ratingContent);
    RatingRoundTrip(r.ratingTeaching);
    RatingRoundTrip(r.ratingGrading);
    RatingRoundTrip(r.ratingWorkload);
  }

  /** A whole rating from 1 to 5, sent as a number, is accepted as that rating. */
  lemma RatingRoundTrip(n: int)
    requires 1 <= n <= 5
    ensures Rating(Num(n as real)) == Some(n)
  {
    assert (n as real).Floor == n;
  }

  /** Parsing is idempotent: re-sending what a parse produced yields the same review. */
  lemma CreateReparse(i: CreateInput)
    requires ParseCreate(i).Some?
    ensures ParseCreate(CreateBody(ParseCreate(i).value)) == ParseCreate(i)
  {
    CreateRoundTrip(ParseCreate(i).value);
  }

  /** Content shorter than 50 characters, such as "short", is rejected whatever else is sent. */
  lemma ShortContentRejected(i: CreateInput)
    requires i.content.Str? && |i.content.s| < 50
    ensures ParseCreate(i) == None
  {
  }

  /** A semester that is not `<year>-<Season>`, such as "Fall 2025", is rejected whatever else is sent. */
  lemma BadSemesterRejected(i: CreateInput)
    requires i.semester.Str? && SemesterGroups(i.semester.s).None?
    ensures ParseCreate(i) == None
  {
  }

  // ---------------------------------------------------------------------------
  // updateReviewSchema

  datatype UpdateInput = UpdateInput(
    content: Field, ratingContent: Field, ratingTeaching: Field, ratingGrading: Field, ratingWorkload: Field)

  datatype ReviewPatch = ReviewPatch(
    content: Option<string>, ratingContent: Option<int>, ratingTeaching: Option<int>,
    ratingGrading: Option<int>, ratingWorkload: Option<int>)

  /** `updateReviewSchema.safeParse(i)`: every field optional, with the bounds of the create schema. */
  function ParseUpdate(i: UpdateInput): (r: Option<ReviewPatch>)
    ensures r.Some? <==>
      OptionalText(i.content, 50, 2000).Some?
      && OptionalRating(i.ratingContent).Some? && OptionalRating(i.ratingTeaching).Some?
      && OptionalRating(i.ratingGrading).Some? && OptionalRating(i.ratingWorkload).Some?
    ensures r.Some? ==> (r.value.content.None? <==> i.content.Absent?)
    ensures r.Some? && r.value.content.Some? ==> 50 <= |r.value.content.value| <= 2000 && Trimmed(r.value.content.value)
    ensures r.Some? && r.value.ratingContent.Some? ==> 1 <= r.value.ratingContent.value <= 5
  {
    var content := OptionalText(i.content, 50, 2000);
    var rc, rt := OptionalRating(i.ratingContent), OptionalRating(i.ratingTeaching);
    var rg, rw := OptionalRating(i.ratingGrading), OptionalRating(i.ratingWorkload);
    if content.Some? && rc.Some? && rt.Some? && rg.Some? && rw.Some?
    then Some(ReviewPatch(content.value, rc.value, rt.value, rg.value, rw.value))
    else None
  }

  /** An update that sends a single valid rating, as `{ ratingContent: 4 }`, is accepted and changes only that rating. */
  lemma SingleRatingUpdate(n: int)
    requires 1 <= n <= 5
    ensures ParseUpdate(UpdateInput(Absent, Num(n as real), Absent, Absent, Absent))
      == Some(ReviewPatch(None, Some(n), None, None, None))
  {
  }

  /** An empty update is accepted and changes nothing. */
  lemma EmptyUpdate()
    ensures ParseUpdate(UpdateInput(Absent, Absent, Absent, Absent, Absent)) == Some(ReviewPatch(None, None, None, None, None))
  {
  }

  /** Whatever the create schema accepts for content and ratings, the update schema accepts too. */
  lemma UpdateAcceptsCreateValues(i: CreateInput)
    requires ParseCreate(i).Some?
    ensures ParseUpdate(UpdateInput(i.content, i.ratingContent, i.ratingTeaching, i.ratingGrading, i.ratingWorkload)).Some?
  {
  }

  // ---------------------------------------------------------------------------
  // voteSchema and reportSchema

  /** `voteSchema`: an integer that is 1 or -1. */
  function ParseVote(value: Field): (r: Option<int>)
    ensures r.Some? <==> value == Num(1.0) || value == Num(-1.0)
    ensures r.Some? ==> (r.value == 1 || r.value == -1) && value == Num(r.value as real)
  {
    if value.Num? && IsInteger(value.n) && (value.n == 1.0 || value.n == -1.0) then Some(value.n.Floor) else None
  }

  /** `reportSchema`: a reason of 5 to 300 characters after trimming. */
  function ParseReport(reason: Field): (r: Option<string>)
    ensures r.Some? <==> reason.Str? && 5 <= |Trim(reason.s)| <= 300
    ensures r.Some? ==> Trimmed(r.value) && |r.value| <= |reason.s|
  {
    TrimmedText(reason, 5, 300)
  }

  /** Padding a reason with whitespace never changes whether it is accepted, nor the reason kept. */
  lemma ReportIgnoresPadding(reason: string)
    ensures ParseReport(Str(reason)) == ParseReport(Str(Trim(reason)))
  {
    TrimIdempotent(reason);
  }
}
