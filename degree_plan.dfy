/**
 * The import loop of scripts/parse-degree-plan.ts (`main`): the scanned entries of a
 * degree plan are stored for one user as (user, code, semester) rows, each with an
 * insert-if-absent upsert.
 */
module DegreePlan {
  import opened Common
  import opened TermScanner
  import opened Store

  /** `it.term || 'unknown'` */
  function Semester(term: Option<string>): string {
    match term
    case Some(t) => if t == "" then "unknown" else t
    case None => "unknown"
  }

  function Row(user: nat, e: Extracted): ImportedCourse {
    ImportedCourse(user, e.code, Semester(e.term))
  }

  function Rows(user: nat, items: seq<Extracted>): set<ImportedCourse> {
    set k | 0 <= k < |items| :: Row(user, items[k])
  }

  datatype ImportError =
    | Usage         // no user e-mail given
    | UserNotFound  // no account with that e-mail

  /** The upsert loop: one insert-if-absent per entry, each counted. */
  method UpsertRows(db: Database, user: nat, items: seq<Extracted>) returns (created: nat)
    modifies db`importedCourses
    ensures created == |items|
    ensures db.importedCourses == old(db.importedCourses) + Rows(user, items)
  {
    created := 0;
    for k := 0 to |items|
      invariant created == k
      invariant db.importedCourses == old(db.importedCourses) + Rows(user, items[..k])
    {
      RowsSnoc(user, items[..k], items[k]);
      assert items[..k + 1] == items[..k] + [items[k]];
      db.importedCourses := db.importedCourses + {Row(user, items[k])};
      created := created + 1;
    }
    assert items[..|items|] == items;
  }

  /**
   * `main` after the PDF text is read: scan it, look the user up, then upsert one row
   * per entry. Nothing is written when the user is unknown.
   */
  method ImportDegreePlan(db: Database, pdfText: string, email: string) returns (r: Result<nat, ImportError>)
    modifies db`importedCourses
    ensures email == "" ==> r == Err(Usage)
    ensures email != "" && email !in db.users ==> r == Err(UserNotFound)
    ensures r.Err? ==> db.importedCourses == old(db.importedCourses)
    ensures email != "" && email in db.users ==>
      r == Ok(|Extract(pdfText)|) &&
      db.importedCourses == old(db.importedCourses) + Rows(db.users[email], Extract(pdfText))
  {
    if email == "" {
      return Err(Usage);
    }
    var items := ExtractCourses(pdfText);
    if email !in db.users {
      return Err(UserNotFound);
    }
    var created := UpsertRows(db, db.users[email], items);
    r := Ok(created);
  }

  lemma RowsSnoc(user: nat, items: seq<Extracted>, e: Extracted)
    ensures Rows(user, items + [e]) == Rows(user, items) + {Row(user, e)}
  {
    var ys := items + [e];
    assert forall j :: 0 <= j < |items| ==> ys[j] == items[j];
    assert ys[|items|] == e;
  }

  /** Two well-formed entries give the same row only when they are the same entry. */
  lemma RowInjective(user: nat, a: Extracted, b: Extracted)
    requires WellFormed(a) && WellFormed(b) && Row(user, a) == Row(user, b)
    ensures a == b
  {
    SemesterInjective(a.term, b.term);
  }

  /** A normalised term is never the placeholder "unknown", so the semester keeps the term apart from "no term". */
  lemma SemesterInjective(a: Option<string>, b: Option<string>)
    requires a.Some? ==> IsTerm(a.value)
    requires b.Some? ==> IsTerm(b.value)
    requires Semester(a) == Semester(b)
    ensures a == b
  {
    if a.Some? { assert a.value[0] == '2'; }
    if b.Some? { assert b.value[0] == '2'; }
  }

  lemma RowsSize(user: nat, items: seq<Extracted>)
    requires forall k :: 0 <= k < |items| ==> WellFormed(items[k])
    requires forall p, q :: 0 <= p < q < |items| ==> items[p] != items[q]
    ensures |Rows(user, items)| == |items|
  {
    forall p, q | 0 <= p < q < |items| ensures Row(user, items[p]) != Row(user, items[q]) {
      if Row(user, items[p]) == Row(user, items[q]) {
        RowInjective(user, items[p], items[q]);
      }
    }
    RowsCard(user, items);
  }

  /** Pairwise different rows are as many as the entries. */
  lemma {:induction false} RowsCard(user: nat, items: seq<Extracted>)
    requires forall p, q :: 0 <= p < q < |items| ==> Row(user, items[p]) != Row(user, items[q])
    ensures |Rows(user, items)| == |items|
  {
    if items != [] {
      var init, last := items[..|items| - 1], items[|items| - 1];
      assert items == init + [last];
      RowsCard(user, init);
      RowsSnoc(user, init, last);
      forall j | 0 <= j < |init| ensures Row(user, init[j]) != Row(user, last) {
        assert init[j] == items[j];
      }
      assert Row(user, last) !in Rows(user, init);
    }
  }

  /**
   * For a user with no rows yet, the count reported equals the number of rows stored:
   * each scanned entry becomes its own row, since the scanner emits each (code, term)
   * pair once and the semester keeps distinct terms apart.
   */
  lemma ImportCountsDistinctRows(user: nat, pdfText: string)
    ensures |Rows(user, Extract(pdfText))| == |Extract(pdfText)|
  {
    ExtractWellFormed(pdfText);
    RowsSize(user, Extract(pdfText));
  }

  /** Importing the same plan again adds no row: every row it would write is already there. */
  lemma ReimportAddsNothing(before: set<ImportedCourse>, user: nat, items: seq<Extracted>)
    ensures (before + Rows(user, items)) + Rows(user, items) == before + Rows(user, items)
  {
  }
}
