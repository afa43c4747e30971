/**
 * `parseEnrollJSON` of lib/enroll-parser.ts (copied verbatim in scripts/scrape-uw.ts):
 * a best-effort reader of schedule rows in several JSON shapes. Any exception while
 * parsing or walking the rows makes the whole result empty.
 */
module EnrollParser {
  import opened Common
  import opened Text
  import opened Js

  /**
   * A schedule item. The section and the instructor entries keep whatever JSON value
   * the row held, as the source does; only the code is converted to a string.
   */
  datatype ScheduleItem = ScheduleItem(code: string, section: Value, instructors: seq<Value>)

  /** `Array.isArray(data) ? data : data?.results || data?.courses || []`, then iterated. */
  function RowsOf(data: Value): Result<seq<Value>, Exception> {
    if data.Arr? then Ok(data.elems)
    else Iterate(Or(Or(GetOpt(data, "results"), GetOpt(data, "courses")), Arr([])))
  }

  /** `(r.code || r.courseCode || r.course?.code || '').toString().replace(/\s+/g, '')` */
  function RowCode(r: Value): Result<string, Exception> {
    if Nullish(r) then Err(TypeError)  // `r.code` throws
    else
      var code := Or(Or(Or(GetOpt(r, "code"), GetOpt(r, "courseCode")), GetOpt(GetOpt(r, "course"), "code")), Str(""));
      var s :- ToStr(code);
      Ok(RemoveSpaces(s))
  }

  /** `r.section || r.classSection || r.sectionNumber` (the last operand when none is truthy). */
  function RowSection(r: Value): Result<Value, Exception> {
    if Nullish(r) then Err(TypeError)
    else Ok(Or(Or(GetOpt(r, "section"), GetOpt(r, "classSection")), GetOpt(r, "sectionNumber")))
  }

  /** `typeof x === 'string' ? x : x.name || x.displayName || ''` */
  function InstructorName(x: Value): Result<Value, Exception> {
    if x.Str? then Ok(x)
    else if Nullish(x) then Err(TypeError)  // `x.name` throws
    else Ok(Or(Or(GetOpt(x, "name"), GetOpt(x, "displayName")), Str("")))
  }

  /** `.map(InstructorName)`: throws when any element throws. */
  function MapNames(xs: seq<Value>): (r: Result<seq<Value>, Exception>)
    ensures r.Ok? ==> |r.value| == |xs|
  {
    if xs == [] then Ok([])
    else
      var head :- InstructorName(xs[0]);
      var rest :- MapNames(xs[1..]);
      Ok([head] + rest)
  }

  /** `.filter(Boolean)` */
  function KeepTruthy(xs: seq<Value>): (r: seq<Value>)
    ensures |r| <= |xs|
    ensures forall k :: 0 <= k < |r| ==> Truthy(r[k]) && r[k] in xs
    ensures forall x :: x in xs && Truthy(x) ==> x in r
  {
    if xs == [] then []
    else if Truthy(xs[0]) then [xs[0]] + KeepTruthy(xs[1..])
    else KeepTruthy(xs[1..])
  }

  /** `(r.instructors || r.instructorList || r.staff || []).map(...).filter(Boolean)`: `.map` throws on a non-array. */
  function RowInstructors(r: Value): Result<seq<Value>, Exception> {
    var list := Or(Or(Or(GetOpt(r, "instructors"), GetOpt(r, "instructorList")), GetOpt(r, "staff")), Arr([]));
    if Nullish(r) || !list.Arr? then Err(TypeError)  // `r.instructors` or `.map` throws
    else
      var names :- MapNames(list.elems);
      Ok(KeepTruthy(names))
  }

  /** One row: its item when the code is non-empty, nothing when it is empty, or the exception it throws. */
  function RowItem(r: Value): Result<Option<ScheduleItem>, Exception> {
    var code :- RowCode(r);
    var section :- RowSection(r);
    var instructors :- RowInstructors(r);
    if code != "" then Ok(Some(ScheduleItem(code, section, instructors))) else Ok(None)
  }

  /** The items of the rows, in row order, or the first exception. */
  function RowItems(rows: seq<Value>): Result<seq<ScheduleItem>, Exception> {
    if rows == [] then Ok([])
    else
      var items :- RowItems(rows[..|rows| - 1]);
      var item :- RowItem(rows[|rows| - 1]);
      match item
      case Some(it) => Ok(items + [it])
      case None => Ok(items)
  }

  /** What `parseEnrollJSON` returns for the outcome of `JSON.parse` (`None`: it threw). */
  function EnrollItems(parsed: Option<Value>): seq<ScheduleItem> {
    match parsed
    case None => []
    case Some(data) =>
      match RowsOf(data)
      case Err(_) => []
      case Ok(rows) =>
        match RowItems(rows)
        case Err(_) => []
        case Ok(items) => items
  }

  /** Once a row throws, the rows after it do not matter: the whole walk throws. */
  lemma {:induction false} RowItemsErrSticks(rows: seq<Value>, n: nat)
    requires n <= |rows| && RowItems(rows[..n]).Err?
    ensures RowItems(rows).Err?
    decreases |rows| - n
  {
    if n < |rows| {
      assert rows[..n + 1][..n] == rows[..n];
      RowItemsErrSticks(rows, n + 1);
    } else {
      assert rows[..n] == rows;
    }
  }

  /** One more row extends the items by that row's item, or turns the walk into its exception. */
  lemma RowItemsStep(rows: seq<Value>, k: nat, items: seq<ScheduleItem>)
    requires k < |rows| && RowItems(rows[..k]) == Ok(items)
    ensures RowItems(rows[..k + 1]) ==
      match RowItem(rows[k])
      case Err(e) => Err(e)
      case Ok(Some(it)) => Ok(items + [it])
      case Ok(None) => Ok(items)
  {
    assert rows[..k + 1][..k] == rows[..k];
  }

  /** `parseEnrollJSON(jsonText)`, with `JSON.parse` given as `parse` (`None` when it throws). */
  method ParseEnrollJSON(parse: string -> Option<Value>, jsonText: string) returns (items: seq<ScheduleItem>)
    ensures items == EnrollItems(parse(jsonText))
  {
    var parsed := parse(jsonText);
    if parsed.None? {
      return [];
    }
    var rowsOrError := RowsOf(parsed.value);
    if rowsOrError.Err? {
      return [];
    }
    var rows := rowsOrError.value;
    items := [];
    for k := 0 to |rows|
      invariant RowItems(rows[..k]) == Ok(items)
    {
      RowItemsStep(rows, k, items);
      match RowItem(rows[k]) {
        case Err(_) =>
          RowItemsErrSticks(rows, k + 1);
          return [];
        case Ok(Some(it)) =>
          items := items + [it];
        case Ok(None) =>
      }
    }
    assert rows[..|rows|] == rows;
  }

  // ---------------------------------------------------------------------------
  // Properties

  /** What every item satisfies: a non-empty code without whitespace, and only truthy instructor entries. */
  predicate WellFormedItem(it: ScheduleItem) {
    it.code != "" &&
    (forall k :: 0 <= k < |it.code| ==> !IsSpace(it.code[k])) &&
    (forall k :: 0 <= k < |it.instructors| ==> Truthy(it.instructors[k]))
  }

  /** Items come one per row at most, each well-formed. */
  lemma {:induction false} RowItemsWellFormed(rows: seq<Value>)
    ensures RowItems(rows).Ok? ==>
      |RowItems(rows).value| <= |rows| &&
      forall k :: 0 <= k < |RowItems(rows).value| ==> WellFormedItem(RowItems(rows).value[k])
  {
    if rows != [] {
      RowItemsWellFormed(rows[..|rows| - 1]);
    }
  }

  lemma ParseEnrollWellFormed(parsed: Option<Value>)
    ensures forall k :: 0 <= k < |EnrollItems(parsed)| ==> WellFormedItem(EnrollItems(parsed)[k])
  {
    if parsed.Some? && RowsOf(parsed.value).Ok? {
      RowItemsWellFormed(RowsOf(parsed.value).value);
    }
  }

  /** A `null` row makes `r.code` throw, so the whole result is empty. */
  lemma NullRowEmptiesResult(data: Value, k: nat)
    requires RowsOf(data).Ok? && k < |RowsOf(data).value| && RowsOf(data).value[k] == Null
    ensures EnrollItems(Some(data)) == []
  {
    var rows := RowsOf(data).value;
    var prefix := rows[..k + 1];
    assert prefix[..k] == rows[..k] && prefix[k] == Null;
    assert RowItem(Null).Err?;
    assert RowItems(prefix).Err?;
    RowItemsErrSticks(rows, k + 1);
  }

  /** Unparseable JSON gives no items rather than an exception. */
  lemma MalformedGivesNothing()
    ensures EnrollItems(None) == []
  {
  }

  /** A top-level value that is neither an array nor has truthy `results` or `courses` gives no rows. */
  lemma NoRowListGivesNothing(data: Value)
    requires !data.Arr? && !Truthy(GetOpt(data, "results")) && !Truthy(GetOpt(data, "courses"))
    ensures EnrollItems(Some(data)) == []
  {
    assert RowsOf(data) == Ok([]);
  }

  // ---------------------------------------------------------------------------
  // The three-shape fixture of the parser's test

  const Row1: Value := Obj([("code", Str("MATH 521")), ("section", Str("001")),
    ("instructors", Arr([Obj([("name", Str("Prof A"))]), Obj([("name", Str("Prof B"))])]))])
  const Row2: Value := Obj([("courseCode", Str("CS 400")), ("classSection", Str("002")),
    ("instructorList", Arr([Str("TA C")]))])
  const Row3: Value := Obj([("course", Obj([("code", Str("ECON 101"))])), ("sectionNumber", Str("003")),
    ("staff", Arr([Obj([("displayName", Str("Prof D"))])]))])
  const Fixture: Value := Obj([("results", Arr([Row1, Row2, Row3]))])

  // Steps for evaluating rows written as literals

  lemma RowCodeIs(r: Value, s: string)
    requires !Nullish(r)
    requires Or(Or(Or(GetOpt(r, "code"), GetOpt(r, "courseCode")), GetOpt(GetOpt(r, "course"), "code")), Str("")) == Str(s)
    ensures RowCode(r) == Ok(RemoveSpaces(s))
  {
  }

  lemma MapNamesCons(x: Value, xs: seq<Value>, h: Value, t: seq<Value>)
    requires InstructorName(x) == Ok(h) && MapNames(xs) == Ok(t)
    ensures MapNames([x] + xs) == Ok([h] + t)
  {
    var ys := [x] + xs;
    assert ys[0] == x && ys[1..] == xs;
  }

  lemma RowInstructorsIs(r: Value, list: seq<Value>, names: seq<Value>)
    requires !Nullish(r)
    requires Or(Or(Or(GetOpt(r, "instructors"), GetOpt(r, "instructorList")), GetOpt(r, "staff")), Arr([])) == Arr(list)
    requires MapNames(list) == Ok(names)
    ensures RowInstructors(r) == Ok(KeepTruthy(names))
  {
  }

  lemma RowItemIs(r: Value, code: string, section: Value, instructors: seq<Value>)
    requires RowCode(r) == Ok(code) && RowSection(r) == Ok(section) && RowInstructors(r) == Ok(instructors)
    requires code != ""
    ensures RowItem(r) == Ok(Some(ScheduleItem(code, section, instructors)))
  {
  }

  lemma TwoSpacedWords(a: string, b: string, ab: string, s: string)
    requires forall k :: 0 <= k < |a| ==> !IsSpace(a[k])
    requires forall k :: 0 <= k < |b| ==> !IsSpace(b[k])
    requires s == a + " " + b && ab == a + b
    ensures RemoveSpaces(s) == ab
  {
    RemoveOneSpace(a, b);
  }

  lemma Row1Fields()
    ensures RowSection(Row1) == Ok(Str("001"))
    ensures Or(Or(Or(GetOpt(Row1, "code"), GetOpt(Row1, "courseCode")), GetOpt(GetOpt(Row1, "course"), "code")), Str("")) == Str("MATH 521")
    ensures Or(Or(Or(GetOpt(Row1, "instructors"), GetOpt(Row1, "instructorList")), GetOpt(Row1, "staff")), Arr([])) ==
      Arr([Obj([("name", Str("Prof A"))]), Obj([("name", Str("Prof B"))])])
  {
    var ms := Row1.members;
    assert ms[..2][..1][..0] == [];
    assert GetOpt(Row1, "code") == Str("MATH 521") by { assert Member(ms[..2], "code") == Str("MATH 521"); }
    assert GetOpt(Row1, "section") == Str("001") by { assert Member(ms[..2], "section") == Str("001"); }
  }

  lemma Row1Instructors()
    ensures RowInstructors(Row1) == Ok([Str("Prof A"), Str("Prof B")])
  {
    var a, b := Obj([("name", Str("Prof A"))]), Obj([("name", Str("Prof B"))]);
    Row1Names();
    Row1Fields();
    assert KeepTruthy([Str("Prof A"), Str("Prof B")]) == [Str("Prof A"), Str("Prof B")];
    RowInstructorsIs(Row1, [a, b], [Str("Prof A"), Str("Prof B")]);
  }

  lemma Row1Names()
    ensures MapNames([Obj([("name", Str("Prof A"))]), Obj([("name", Str("Prof B"))])]) == Ok([Str("Prof A"), Str("Prof B")])
  {
    var a, b := Obj([("name", Str("Prof A"))]), Obj([("name", Str("Prof B"))]);
    assert InstructorName(a) == Ok(Str("Prof A")) by { assert a.members[..0] == []; }
    assert InstructorName(b) == Ok(Str("Prof B")) by { assert b.members[..0] == []; }
    TwoNames(a, b, Str("Prof A"), Str("Prof B"));
  }

  /** Two instructor entries map to their two names. */
  lemma TwoNames(a: Value, b: Value, ha: Value, hb: Value)
    requires InstructorName(a) == Ok(ha) && InstructorName(b) == Ok(hb)
    ensures MapNames([a, b]) == Ok([ha, hb])
  {
    assert [b] + [] == [b] && [hb] + [] == [hb];
    assert [a] + [b] == [a, b] && [ha] + [hb] == [ha, hb];
    MapNamesCons(b, [], hb, []);
    MapNamesCons(a, [b], ha, [hb]);
  }

  lemma Row1Code()
    ensures RowCode(Row1) == Ok("MATH521")
  {
    Row1Fields();
    TwoSpacedWords("MATH", "521", "MATH521", "MATH 521");
    RowCodeIs(Row1, "MATH 521");
  }

  lemma FixtureRow1()
    ensures RowItem(Row1) == Ok(Some(ScheduleItem("MATH521", Str("001"), [Str("Prof A"), Str("Prof B")])))
  {
    Row1Fields();
    Row1Code();
    Row1Instructors();
    RowItemIs(Row1, "MATH521", Str("001"), [Str("Prof A"), Str("Prof B")]);
  }

  lemma Row2Fields()
    ensures RowSection(Row2) == Ok(Str("002"))
    ensures Or(Or(Or(GetOpt(Row2, "code"), GetOpt(Row2, "courseCode")), GetOpt(GetOpt(Row2, "course"), "code")), Str("")) == Str("CS 400")
    ensures Or(Or(Or(GetOpt(Row2, "instructors"), GetOpt(Row2, "instructorList")), GetOpt(Row2, "staff")), Arr([])) == Arr([Str("TA C")])
  {
    var ms := Row2.members;
    assert ms[..2][..1][..0] == [];
    assert GetOpt(Row2, "code") == Undefined by { assert Member(ms[..2][..1], "code") == Undefined; }
    assert GetOpt(Row2, "courseCode") == Str("CS 400") by { assert Member(ms[..2], "courseCode") == Str("CS 400"); }
    assert GetOpt(Row2, "course") == Undefined by { assert Member(ms[..2][..1], "course") == Undefined; }
    assert GetOpt(Row2, "section") == Undefined by { assert Member(ms[..2][..1], "section") == Undefined; }
    assert GetOpt(Row2, "classSection") == Str("002") by { assert Member(ms[..2], "classSection") == Str("002"); }
    assert GetOpt(Row2, "instructors") == Undefined by { assert Member(ms[..2][..1], "instructors") == Undefined; }
  }

  lemma Row2Code()
    ensures RowCode(Row2) == Ok("CS400")
  {
    Row2Fields();
    TwoSpacedWords("CS", "400", "CS400", "CS 400");
    RowCodeIs(Row2, "CS 400");
  }

  lemma Row2Instructors()
    ensures RowInstructors(Row2) == Ok([Str("TA C")])
  {
    Row2Fields();
    MapNamesCons(Str("TA C"), [], Str("TA C"), []);
    assert [Str("TA C")] + [] == [Str("TA C")];
    RowInstructorsIs(Row2, [Str("TA C")], [Str("TA C")]);
    assert KeepTruthy([Str("TA C")]) == [Str("TA C")];
  }

  lemma FixtureRow2()
    ensures RowItem(Row2) == Ok(Some(ScheduleItem("CS400", Str("002"), [Str("TA C")])))
  {
    Row2Fields();
    Row2Code();
    Row2Instructors();
    RowItemIs(Row2, "CS400", Str("002"), [Str("TA C")]);
  }

  lemma Row3Fields()
    ensures RowSection(Row3) == Ok(Str("003"))
    ensures Or(Or(Or(GetOpt(Row3, "code"), GetOpt(Row3, "courseCode")), GetOpt(GetOpt(Row3, "course"), "code")), Str("")) == Str("ECON 101")
    ensures Or(Or(Or(GetOpt(Row3, "instructors"), GetOpt(Row3, "instructorList")), GetOpt(Row3, "staff")), Arr([])) ==
      Arr([Obj([("displayName", Str("Prof D"))])])
  {
    Row3Lookups();
  }

  /** What the row's lookups find: only `course` and `staff` are present. */
  lemma Row3Lookups()
    ensures GetOpt(Row3, "code") == Undefined && GetOpt(Row3, "courseCode") == Undefined
    ensures GetOpt(Row3, "course") == Obj([("code", Str("ECON 101"))])
    ensures GetOpt(Row3, "section") == Undefined && GetOpt(Row3, "classSection") == Undefined
    ensures GetOpt(Row3, "instructors") == Undefined && GetOpt(Row3, "instructorList") == Undefined
  {
    var ms := Row3.members;
    assert ms[..2][..1][..0] == [];
    assert Member(ms[..2][..1], "code") == Undefined;
    assert Member(ms[..2][..1], "courseCode") == Undefined;
    assert Member(ms[..2][..1], "course") == Obj([("code", Str("ECON 101"))]);
    assert Member(ms[..2][..1], "section") == Undefined;
    assert Member(ms[..2][..1], "classSection") == Undefined;
    assert Member(ms[..2][..1], "instructors") == Undefined;
    assert Member(ms[..2][..1], "instructorList") == Undefined;
  }

  lemma Row3Instructors()
    ensures RowInstructors(Row3) == Ok([Str("Prof D")])
  {
    Row3Fields();
    var d := Obj([("displayName", Str("Prof D"))]);
    assert InstructorName(d) == Ok(Str("Prof D")) by { assert d.members[..0] == []; }
    MapNamesCons(d, [], Str("Prof D"), []);
    assert [d] + [] == [d] && [Str("Prof D")] + [] == [Str("Prof D")];
    RowInstructorsIs(Row3, [d], [Str("Prof D")]);
    assert KeepTruthy([Str("Prof D")]) == [Str("Prof D")];
  }

  lemma Row3Code()
    ensures RowCode(Row3) == Ok("ECON101")
  {
    Row3Fields();
    TwoSpacedWords("ECON", "101", "ECON101", "ECON 101");
    RowCodeIs(Row3, "ECON 101");
  }

  lemma FixtureRow3()
    ensures RowItem(Row3) == Ok(Some(ScheduleItem("ECON101", Str("003"), [Str("Prof D")])))
  {
    Row3Fields();
    Row3Code();
    Row3Instructors();
    RowItemIs(Row3, "ECON101", Str("003"), [Str("Prof D")]);
  }

  lemma EnrollItemsIs(data: Value, rows: seq<Value>, items: seq<ScheduleItem>)
    requires RowsOf(data) == Ok(rows) && RowItems(rows) == Ok(items)
    ensures EnrollItems(Some(data)) == items
  {
  }

  lemma FixtureRows()
    ensures RowsOf(Fixture) == Ok([Row1, Row2, Row3])
  {
    assert Fixture.members[..0] == [];
  }

  /** A row with an item after rows whose items are known. */
  lemma RowItemsSnoc(rows: seq<Value>, r: Value, items: seq<ScheduleItem>, it: ScheduleItem)
    requires RowItems(rows) == Ok(items) && RowItem(r) == Ok(Some(it))
    ensures RowItems(rows + [r]) == Ok(items + [it])
  {
    var rs := rows + [r];
    assert rs[..|rs| - 1] == rows && rs[|rs| - 1] == r;
  }

  lemma OneRowItems(r1: Value, i1: ScheduleItem)
    requires RowItem(r1) == Ok(Some(i1))
    ensures RowItems([r1]) == Ok([i1])
  {
    RowItemsSnoc([], r1, [], i1);
    assert [] + [r1] == [r1] && [] + [i1] == [i1];
  }

  lemma TwoRowItems(r1: Value, r2: Value, i1: ScheduleItem, i2: ScheduleItem)
    requires RowItem(r1) == Ok(Some(i1)) && RowItem(r2) == Ok(Some(i2))
    ensures RowItems([r1, r2]) == Ok([i1, i2])
  {
    OneRowItems(r1, i1);
    RowItemsSnoc([r1], r2, [i1], i2);
    assert [r1] + [r2] == [r1, r2] && [i1] + [i2] == [i1, i2];
  }

  lemma ThreeRowItems(r1: Value, r2: Value, r3: Value, i1: ScheduleItem, i2: ScheduleItem, i3: ScheduleItem)
    requires RowItem(r1) == Ok(Some(i1)) && RowItem(r2) == Ok(Some(i2)) && RowItem(r3) == Ok(Some(i3))
    ensures RowItems([r1, r2, r3]) == Ok([i1, i2, i3])
  {
    assert [r1, r2] + [r3] == [r1, r2, r3] && [i1, i2] + [i3] == [i1, i2, i3];
    TwoRowItems(r1, r2, i1, i2);
    RowItemsSnoc([r1, r2], r3, [i1, i2], i3);
  }

  /** The test fixture: one row per shape, each yielding its code without spaces, its section and its instructors. */
  lemma FixtureItems()
    ensures EnrollItems(Some(Fixture)) == [
      ScheduleItem("MATH521", Str("001"), [Str("Prof A"), Str("Prof B")]),
      ScheduleItem("CS400", Str("002"), [Str("TA C")]),
      ScheduleItem("ECON101", Str("003"), [Str("Prof D")])]
  {
    FixtureRow1();
    FixtureRow2();
    FixtureRow3();
    ThreeRowItems(Row1, Row2, Row3,
      ScheduleItem("MATH521", Str("001"), [Str("Prof A"), Str("Prof B")]),
      ScheduleItem("CS400", Str("002"), [Str("TA C")]),
      ScheduleItem("ECON101", Str("003"), [Str("Prof D")]));
    FixtureRows();
    EnrollItemsIs(Fixture, [Row1, Row2, Row3], [
      ScheduleItem("MATH521", Str("001"), [Str("Prof A"), Str("Prof B")]),
      ScheduleItem("CS400", Str("002"), [Str("TA C")]),
      ScheduleItem("ECON101", Str("003"), [Str("Prof D")])]);
  }
}
