/**
 * scripts/import-courses.ts in CSV mode: `parseCSV` turns a header row and data rows
 * into input courses, `normalize` cleans the code and the name, and `upsertCourses`
 * writes each usable course and its department to the store, counting the courses it
 * created and the ones it updated. Credits and level are kept as the column text;
 * their conversion by `Number` is not modelled.
 */
module CourseImport {
  import opened Common
  import opened Text
  import opened Store

  /** An input course. `departmentCode` and `departmentName` are `""` when absent. */
  datatype InputCourse = InputCourse(
    code: Option<string>,
    name: Option<string>,
    departmentCode: string,
    departmentName: string,
    credits: Option<string>,
    level: Option<string>)

  // ---------------------------------------------------------------------------
  // parseCSV

  /** `(cols[i] || '').trim()`: a missing column reads as `""`. */
  function Cell(cols: seq<string>, i: nat): string {
    if i < |cols| then Trim(cols[i]) else ""
  }

  /** The cells of a data line under `n` headers, left to right. */
  function CellsOf(cols: seq<string>, n: nat): (r: seq<string>)
    ensures |r| == n && forall i :: 0 <= i < n ==> r[i] == Cell(cols, i)
  {
    seq(n, i requires 0 <= i => Cell(cols, i))
  }

  /** Keys paired with values left to right; a key that occurs twice keeps its later value. */
  function Assign<V>(keys: seq<string>, vals: seq<V>): map<string, V>
    requires |vals| == |keys|
  {
    if keys == [] then map[]
    else Assign(keys[..|keys| - 1], vals[..|keys| - 1])[keys[|keys| - 1] := vals[|keys| - 1]]
  }

  lemma {:induction false} AssignLast<V>(keys: seq<string>, vals: seq<V>, h: string, i: nat)
    requires |vals| == |keys| && i < |keys| && keys[i] == h
    requires forall j :: i < j < |keys| ==> keys[j] != h
    ensures h in Assign(keys, vals) && Assign(keys, vals)[h] == vals[i]
  {
    var n := |keys| - 1;
    if i < n {
      var init := keys[..n];
      assert init[i] == h;
      forall j | i < j < |init|
        ensures init[j] != h
      {
        assert init[j] == keys[j];
      }
      AssignLast(init, vals[..n], h, i);
      assert keys[n] != h;
    }
  }

  lemma {:induction false} AssignKeys<V>(keys: seq<string>, vals: seq<V>, h: string)
    requires |vals| == |keys|
    ensures h in Assign(keys, vals) <==> h in keys
  {
    if keys != [] {
      var n := |keys| - 1;
      AssignKeys(keys[..n], vals[..n], h);
      if h in keys[..n] {
        var j :| 0 <= j < n && keys[..n][j] == h;
        assert keys[j] == h;
      }
      if h in keys && h != keys[n] {
        var j :| 0 <= j < |keys| && keys[j] == h;
        assert keys[..n][j] == h;
      }
    }
  }

  /** The row a data line gives: `headers.forEach((h, i) => row[h] = cell i)`. */
  function RowOf(headers: seq<string>, cols: seq<string>): map<string, string> {
    Assign(headers, CellsOf(cols, |headers|))
  }

  /** The `forEach` that fills one row. */
  method BuildRow(headers: seq<string>, cols: seq<string>) returns (row: map<string, string>)
    ensures row == RowOf(headers, cols)
  {
    ghost var cells := CellsOf(cols, |headers|);
    row := map[];
    for i := 0 to |headers|
      invariant row == Assign(headers[..i], cells[..i])
    {
      assert headers[..i + 1][..i] == headers[..i];
      assert cells[..i + 1][..i] == cells[..i];
      row := row[headers[i] := Cell(cols, i)];
    }
    assert headers[..|headers|] == headers;
    assert cells[..|headers|] == cells;
  }

  /**
   * A row has a column for exactly the headers, and a header that occurs more than
   * once holds the cell under its last occurrence.
   */
  lemma RowOfSpec(headers: seq<string>, cols: seq<string>, h: string, i: nat)
    requires i < |headers| && headers[i] == h
    requires forall j :: i < j < |headers| ==> headers[j] != h
    ensures h in RowOf(headers, cols) && RowOf(headers, cols)[h] == Cell(cols, i)
  {
    AssignLast(headers, CellsOf(cols, |headers|), h, i);
  }

  lemma RowOfKeys(headers: seq<string>, cols: seq<string>, h: string)
    ensures h in RowOf(headers, cols) <==> h in headers
  {
    AssignKeys(headers, CellsOf(cols, |headers|), h);
  }

  function Lookup(row: map<string, string>, key: string): Option<string> {
    if key in row then Some(row[key]) else None
  }

  /** `a || b || c` over columns: the first non-empty one, otherwise `""`. */
  function FirstFilled(a: Option<string>, b: Option<string>, c: Option<string>): (r: string)
    ensures r != "" ==> Some(r) in [a, b, c]
    ensures a.Some? && a.value != "" ==> r == a.value
  {
    if a.Some? && a.value != "" then a.value
    else if b.Some? && b.value != "" then b.value
    else if c.Some? && c.value != "" then c.value
    else ""
  }

  /** The text of a column, when present and not empty. */
  function Filled(v: Option<string>): Option<string> {
    if v.Some? && v.value != "" then v else None
  }

  /** The input course one row describes. */
  function RowCourse(row: map<string, string>): InputCourse {
    InputCourse(
      Lookup(row, "code"),
      Lookup(row, "name"),
      FirstFilled(Lookup(row, "departmentcode"), Lookup(row, "dept"), Lookup(row, "department")),
      FirstFilled(Lookup(row, "departmentname"), None, None),
      Filled(Lookup(row, "credits")),
      Filled(Lookup(row, "level")))
  }

  /** `text.split(/\r?\n/).filter(Boolean)` */
  function NonEmptyLines(lines: seq<string>): (r: seq<string>)
    ensures forall k :: 0 <= k < |r| ==> r[k] != "" && r[k] in lines
    ensures |r| <= |lines|
  {
    if lines == [] then []
    else NonEmptyLines(lines[..|lines| - 1]) + (if lines[|lines| - 1] == "" then [] else [lines[|lines| - 1]])
  }

  function HeadersOf(line: string): (r: seq<string>)
    ensures |r| == |Split(line, ',')|
  {
    var cells := Split(line, ',');
    seq(|cells|, k requires 0 <= k < |cells| => Lower(Trim(cells[k])))
  }

  /** `parseCSV` */
  function ParseCSV(text: string): (r: seq<InputCourse>)
    ensures NonEmptyLines(SplitLines(text)) == [] ==> r == []
    ensures NonEmptyLines(SplitLines(text)) != [] ==> |r| == |NonEmptyLines(SplitLines(text))| - 1
  {
    var lines := NonEmptyLines(SplitLines(text));
    if lines == [] then []
    else
      var headers := HeadersOf(lines[0]);
      seq(|lines| - 1, k requires 0 <= k < |lines| - 1 => RowCourse(RowOf(headers, Split(lines[k + 1], ','))))
  }

  /** Each header is trimmed and lower-cased, so a column is found whatever its heading's case and padding. */
  lemma HeaderFound(line: string, k: nat)
    requires k < |Split(line, ',')|
    ensures HeadersOf(line)[k] == Lower(Trim(Split(line, ',')[k]))
    ensures forall j :: 0 <= j < |HeadersOf(line)[k]| ==> !IsUpper(HeadersOf(line)[k][j])
  {
  }

  lemma {:induction false} BlankLines(lines: seq<string>)
    requires forall k :: 0 <= k < |lines| ==> lines[k] == ""
    ensures NonEmptyLines(lines) == []
  {
    if lines != [] {
      BlankLines(lines[..|lines| - 1]);
    }
  }

  /** A CSV with only blank lines, or nothing, gives no courses. */
  lemma BlankCSV(text: string)
    requires forall k :: 0 <= k < |SplitLines(text)| ==> SplitLines(text)[k] == ""
    ensures ParseCSV(text) == []
  {
    BlankLines(SplitLines(text));
  }

  // ---------------------------------------------------------------------------
  // normalize

  /** `normalize`: the code upper-cased with all whitespace removed, the name trimmed. */
  function Normalize(c: InputCourse): (r: InputCourse)
    ensures r.code.Some? <==> c.code.Some?
    ensures r.code.Some? ==> forall k :: 0 <= k < |r.code.value| ==> !IsSpace(r.code.value[k]) && !IsLower(r.code.value[k])
    ensures r.name.Some? <==> c.name.Some?
    ensures r.name.Some? ==> r.name.value == Trim(c.name.value)
    ensures r.departmentCode == c.departmentCode && r.departmentName == c.departmentName
    ensures r.credits == c.credits && r.level == c.level
  {
    c.(code := if c.code.Some? then Some(RemoveSpaces(Upper(c.code.value))) else None,
       name := if c.name.Some? then Some(Trim(c.name.value)) else None)
  }

  /** Normalising twice is normalising once. */
  lemma NormalizeIdempotent(c: InputCourse)
    ensures Normalize(Normalize(c)) == Normalize(c)
  {
    var n := Normalize(c);
    if c.code.Some? {
      var code := n.code.value;
      UpperKeeps(code);
      RemoveSpacesKeeps(code);
    }
    if c.name.Some? {
      TrimIdempotent(c.name.value);
    }
  }

  // ---------------------------------------------------------------------------
  // upsertCourses

  /** A normalised course with a code and a name is imported; any other is skipped. */
  predicate Usable(c: InputCourse) {
    c.code.Some? && c.code.value != "" && c.name.Some? && c.name.value != ""
  }

  /** `c.departmentCode || c.code.match(/^[A-Z]+/i)?.[0]?.toUpperCase()` */
  function DeptCodeOf(c: InputCourse): (r: Option<string>)
    requires Usable(c)
    ensures r.Some? ==> r.value != ""
    ensures c.departmentCode != "" ==> r == Some(c.departmentCode)
  {
    if c.departmentCode != "" then Some(c.departmentCode)
    else
      var e := RunEnd(c.code.value, 0, IsLetter);
      if e == 0 then None else Some(Upper(c.code.value[..e]))
  }

  /** The store and the two counters. */
  datatype ImportState = ImportState(tables: CourseTables, created: nat, updated: nat)

  /**
   * One input course: skipped unless usable; otherwise its department is created or
   * renamed (to its name, or its code when it has none), and the course is updated
   * (credits, level and department kept when the input has none) or created.
   */
  function ImportStep(st: ImportState, raw: InputCourse): ImportState {
    ImportNormalized(st, Normalize(raw))
  }

  /** The step on a course already normalised. */
  function ImportNormalized(st: ImportState, c: InputCourse): ImportState {
    if !Usable(c) then st
    else
      var code := c.code.value;
      var deptId := DeptCodeOf(c);
      var departments :=
        if deptId.Some? then
          st.tables.departments[deptId.value := if c.departmentName != "" then c.departmentName else deptId.value]
        else st.tables.departments;
      if code in st.tables.courses then
        var was := st.tables.courses[code];
        var course := Course(c.name.value, if c.credits.Some? then c.credits else was.credits,
                             if c.level.Some? then c.level else was.level, if deptId.Some? then deptId else was.dept);
        ImportState(CourseTables(departments, st.tables.courses[code := course]), st.created, st.updated + 1)
      else
        var course := Course(c.name.value, c.credits, c.level, deptId);
        ImportState(CourseTables(departments, st.tables.courses[code := course]), st.created + 1, st.updated)
  }

  function ImportRun(st: ImportState, items: seq<InputCourse>): ImportState {
    if items == [] then st else ImportStep(ImportRun(st, items[..|items| - 1]), items[|items| - 1])
  }

  /** One turn of the loop of `upsertCourses`, on the store. */
  method ImportOne(db: Database, created: nat, updated: nat, raw: InputCourse) returns (created': nat, updated': nat)
    modifies db`departments, db`courses
    ensures ImportState(db.CourseRows(), created', updated') ==
      ImportStep(ImportState(old(db.CourseRows()), created, updated), raw)
  {
    created', updated' := created, updated;
    var c := Normalize(raw);
    assert ImportStep(ImportState(old(db.CourseRows()), created, updated), raw) ==
      ImportNormalized(ImportState(old(db.CourseRows()), created, updated), c);
    if c.code.None? || c.code.value == "" || c.name.None? || c.name.value == "" {
      return;
    }
    var code := c.code.value;
    var deptId := DeptCodeOf(c);
    if deptId.Some? {
      var name := if c.departmentName != "" then c.departmentName else deptId.value;
      db.departments := db.departments[deptId.value := name];
    }
    if code in db.courses {
      var was := db.courses[code];
      var credits := if c.credits.Some? then c.credits else was.credits;
      var level := if c.level.Some? then c.level else was.level;
      var dept := if deptId.Some? then deptId else was.dept;
      db.courses := db.courses[code := Course(c.name.value, credits, level, dept)];
      updated' := updated + 1;
    } else {
      db.courses := db.courses[code := Course(c.name.value, c.credits, c.level, deptId)];
      created' := created + 1;
    }
  }

  /** `upsertCourses` */
  method UpsertCourses(db: Database, items: seq<InputCourse>) returns (created: nat, updated: nat)
    modifies db`departments, db`courses
    ensures ImportState(db.CourseRows(), created, updated) == ImportRun(ImportState(old(db.CourseRows()), 0, 0), items)
  {
    created, updated := 0, 0;
    for k := 0 to |items|
      invariant ImportState(db.CourseRows(), created, updated) == ImportRun(ImportState(old(db.CourseRows()), 0, 0), items[..k])
    {
      assert items[..k + 1][..k] == items[..k];
      created, updated := ImportOne(db, created, updated, items[k]);
    }
    assert items[..|items|] == items;
  }

  /** The normalised code of an input course that is usable. */
  function UsableCode(raw: InputCourse): Option<string> {
    var c := Normalize(raw);
    if Usable(c) then c.code else None
  }

  /** The normalised codes of the usable input courses. */
  function UsableCodes(items: seq<InputCourse>): set<string> {
    set k | 0 <= k < |items| && UsableCode(items[k]).Some? :: UsableCode(items[k]).value
  }

  /** The number of usable input courses. */
  function UsableCount(items: seq<InputCourse>): nat {
    if items == [] then 0
    else UsableCount(items[..|items| - 1]) + if UsableCode(items[|items| - 1]).Some? then 1 else 0
  }

  lemma UsableCodesSnoc(items: seq<InputCourse>)
    requires items != []
    ensures var u := UsableCode(items[|items| - 1]);
      UsableCodes(items) == UsableCodes(items[..|items| - 1]) + (if u.Some? then {u.value} else {})
  {
    var init := items[..|items| - 1];
    var u := UsableCode(items[|items| - 1]);
    forall code | code in UsableCodes(items)
      ensures code in UsableCodes(init) + (if u.Some? then {u.value} else {})
    {
      var k :| 0 <= k < |items| && UsableCode(items[k]).Some? && UsableCode(items[k]).value == code;
      if k < |items| - 1 {
        assert init[k] == items[k];
      }
    }
    forall code | code in UsableCodes(init)
      ensures code in UsableCodes(items)
    {
      var k :| 0 <= k < |init| && UsableCode(init[k]).Some? && UsableCode(init[k]).value == code;
      assert items[k] == init[k];
    }
  }

  /** The counters for one input course. */
  lemma ImportStepCounts(st: ImportState, raw: InputCourse)
    ensures var r := ImportStep(st, raw); var u := UsableCode(raw);
      r.created + r.updated == st.created + st.updated + (if u.Some? then 1 else 0) &&
      r.tables.courses.Keys == st.tables.courses.Keys + (if u.Some? then {u.value} else {}) &&
      |r.tables.courses.Keys| == |st.tables.courses.Keys| + (r.created - st.created) &&
      r.created >= st.created
  {
    var u := UsableCode(raw);
    if u.Some? && u.value !in st.tables.courses {
      assert ImportStep(st, raw).tables.courses.Keys == st.tables.courses.Keys + {u.value};
    }
  }

  /**
   * The counters. Every usable input course is counted once, as created or as updated;
   * the courses afterwards are those before plus the usable codes, and `created` is the
   * number of codes that were new.
   */
  lemma {:induction false} ImportCounts(st: ImportState, items: seq<InputCourse>)
    ensures var r := ImportRun(st, items);
      r.created + r.updated == st.created + st.updated + UsableCount(items) &&
      r.tables.courses.Keys == st.tables.courses.Keys + UsableCodes(items) &&
      |r.tables.courses.Keys| == |st.tables.courses.Keys| + (r.created - st.created) &&
      r.created >= st.created
  {
    if items != [] {
      var init := items[..|items| - 1];
      ImportCounts(st, init);
      UsableCodesSnoc(items);
      ImportStepCounts(ImportRun(st, init), items[|items| - 1]);
    }
  }

  /** A course that no usable input names is left exactly as it was. */
  lemma {:induction false} ImportLeavesOthers(st: ImportState, items: seq<InputCourse>, code: string)
    requires code !in UsableCodes(items) && code in st.tables.courses
    ensures var r := ImportRun(st, items); code in r.tables.courses && r.tables.courses[code] == st.tables.courses[code]
  {
    if items != [] {
      UsableCodesSnoc(items);
      ImportLeavesOthers(st, items[..|items| - 1], code);
    }
  }

  /** The department of a usable course with no department column is its code's leading letters, which are upper case. */
  lemma DeptFallback(c: InputCourse)
    requires Usable(c) && c.departmentCode == "" && DeptCodeOf(c).Some?
    ensures var d := DeptCodeOf(c).value;
      |d| <= |c.code.value| && (forall k :: 0 <= k < |d| ==> IsUpper(d[k])) &&
      d == Upper(c.code.value[..|d|])
  {
  }

  /** A usable course's department is in the store afterwards. */
  lemma ImportStepDepartment(st: ImportState, raw: InputCourse)
    requires Usable(Normalize(raw)) && DeptCodeOf(Normalize(raw)).Some?
    ensures var c := Normalize(raw); var d := DeptCodeOf(c).value;
      d in ImportStep(st, raw).tables.departments &&
      ImportStep(st, raw).tables.departments[d] == (if c.departmentName != "" then c.departmentName else d)
  {
  }
}
