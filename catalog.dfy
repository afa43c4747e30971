/**
 * The catalog adapter of scripts/scrape-uw.ts: `parseGuideCatalog` reads the title line
 * of each course block ("MATH 521 — Real Analysis I — 3 credits") into a catalog item,
 * and `upsertCatalog` writes the items to the store. The HTML selection is not modelled:
 * the input is the title text of each block, in document order.
 */
module GuideCatalog {
  import opened Common
  import opened Text
  import opened Store
  import opened TermScanner

  /** A catalog item; `credits` is the numeral text the title gives. */
  datatype CatalogItem = CatalogItem(code: string, name: string, credits: Option<string>, dept: Option<string>)

  // ---------------------------------------------------------------------------
  // /([A-Z&]{2,})\s*(\d{3,4}[A-Z]?)/  (first match, no flags)

  /** A code match: where it starts, the letter group and the number group. */
  datatype CodeGroups = CodeGroups(start: nat, dept: string, number: string)

  /**
   * The match starting at `i`, if any. Only the longest `[A-Z&]` run and the longest
   * whitespace run can be followed by a digit, so neither is given back; the number
   * takes four digits when there are four, and the letter when there is one.
   */
  function CodeGroupsAt(s: string, i: nat): (r: Option<CodeGroups>)
    requires i <= |s|
  {
    var d := RunEnd(s, i, IsDeptChar);
    var w := RunEnd(s, d, IsSpace);
    var e := RunEnd(s, w, IsDigit);
    if d - i < 2 || e - w < 3 then None
    else
      var n := if e - w >= 4 then w + 4 else w + 3;
      var m := if n < |s| && IsUpper(s[n]) then n + 1 else n;
      Some(CodeGroups(i, s[i..d], s[w..m]))
  }

  /** The leftmost match at or after `i`. */
  function FirstCodeGroups(s: string, i: nat): (r: Option<CodeGroups>)
    requires i <= |s|
    ensures r.Some? ==> i <= r.value.start <= |s| && CodeGroupsAt(s, r.value.start) == r
    ensures r.Some? ==> forall j :: i <= j < r.value.start ==> CodeGroupsAt(s, j).None?
    ensures r.None? ==> forall j :: i <= j <= |s| ==> CodeGroupsAt(s, j).None?
    decreases |s| - i
  {
    var here := CodeGroupsAt(s, i);
    if here.Some? then here
    else if i == |s| then None
    else FirstCodeGroups(s, i + 1)
  }

  /** A department group followed by a number group makes a code whose department run is exactly the group. */
  lemma NumberGroupAt(s: string, w: nat, m: nat)
    requires w <= m <= |s|
    requires var e := RunEnd(s, w, IsDigit);
      e - w >= 3 && var n := if e - w >= 4 then w + 4 else w + 3;
      m == (if n < |s| && IsUpper(s[n]) then n + 1 else n)
    ensures IsNumberGroup(s[w..m])
  {
    var e := RunEnd(s, w, IsDigit);
    var n := if e - w >= 4 then w + 4 else w + 3;
    var g := s[w..m];
    assert forall k :: 0 <= k < n - w ==> g[k] == s[w + k];
    assert n - w < |g| ==> !IsDigit(g[n - w]);
    RunEndExact(g, 0, n - w, IsDigit);
  }

  /** The match has the shape of the pattern: the letter group, then the number group, making a code. */
  lemma CodeGroupsShape(s: string, i: nat)
    requires i <= |s| && CodeGroupsAt(s, i).Some?
    ensures var g := CodeGroupsAt(s, i).value;
      |g.dept| >= 2 && (forall k :: 0 <= k < |g.dept| ==> IsDeptChar(g.dept[k])) &&
      IsNumberGroup(g.number) && IsCode(g.dept + g.number) && RunEnd(g.dept + g.number, 0, IsDeptChar) == |g.dept|
  {
    var d, w, m := GroupBounds(s, i);
    GroupsAreCode(s, i, d, w, m, CodeGroupsAt(s, i).value);
  }

  /** The boundaries CodeGroupsAt finds for a match at `i`. */
  lemma GroupBounds(s: string, i: nat) returns (d: nat, w: nat, m: nat)
    requires i <= |s| && CodeGroupsAt(s, i).Some?
    ensures i + 2 <= d <= w <= m <= |s|
    ensures forall k :: i <= k < d ==> IsDeptChar(s[k])
    ensures IsNumberGroup(s[w..m])
    ensures CodeGroupsAt(s, i) == Some(CodeGroups(i, s[i..d], s[w..m]))
  {
    d := RunEnd(s, i, IsDeptChar);
    w := RunEnd(s, d, IsSpace);
    var e := RunEnd(s, w, IsDigit);
    var n := if e - w >= 4 then w + 4 else w + 3;
    m := if n < |s| && IsUpper(s[n]) then n + 1 else n;
    NumberGroupAt(s, w, m);
  }

  /** Helper for CodeGroupsShape over explicit group boundaries. */
  lemma GroupsAreCode(s: string, i: nat, d: nat, w: nat, m: nat, g: CodeGroups)
    requires i + 2 <= d <= w <= m <= |s|
    requires forall k :: i <= k < d ==> IsDeptChar(s[k])
    requires IsNumberGroup(s[w..m])
    requires g == CodeGroups(i, s[i..d], s[w..m])
    ensures |g.dept| >= 2 && (forall k :: 0 <= k < |g.dept| ==> IsDeptChar(g.dept[k])) &&
      IsNumberGroup(g.number) && IsCode(g.dept + g.number) && RunEnd(g.dept + g.number, 0, IsDeptChar) == |g.dept|
  {
    forall k | 0 <= k < |g.dept| ensures IsDeptChar(g.dept[k]) {
      assert g.dept[k] == s[i + k];
    }
    DeptNumberIsCode(g.dept, g.number);
  }

  /** The groups sit in the title as the pattern places them: the letter group at `i`, whitespace, then the number group. */
  lemma CodeGroupsPlace(s: string, i: nat)
    requires i <= |s| && CodeGroupsAt(s, i).Some?
    ensures var g := CodeGroupsAt(s, i).value;
      OccursAt(s, g.dept, i) &&
      exists w :: i + |g.dept| <= w && OccursAt(s, g.number, w) && forall k :: i + |g.dept| <= k < w ==> IsSpace(s[k])
  {
    var g := CodeGroupsAt(s, i).value;
    var d := RunEnd(s, i, IsDeptChar);
    var w := RunEnd(s, d, IsSpace);
    assert OccursAt(s, g.number, w);
  }

  // ---------------------------------------------------------------------------
  // /(\d+(?:\.\d+)?)\s*credit/  (first match, no flags)

  /**
   * The credits numeral of a match starting at `i`, if any. The digit runs are taken
   * whole (a shorter run leaves a digit where `.`, whitespace or `c` must follow), and
   * a fraction is taken whenever a `.` and a digit follow.
   */
  function CreditsAt(s: string, i: nat): Option<string>
    requires i <= |s|
  {
    var j := RunEnd(s, i, IsDigit);
    if j == i then None
    else
      var k := FractionEnd(s, j);
      var w := RunEnd(s, k, IsSpace);
      if CreditWordAt(s, w) then Some(s[i..k]) else None
  }

  /** `credit` at `w` */
  predicate CreditWordAt(s: string, w: int) {
    OccursAt(s, "credit", w)
  }

  /** Where `(?:\.\d+)?` ends when it starts at `j`: after a `.` and a digit run, or at `j`. */
  function FractionEnd(s: string, j: nat): (k: nat)
    requires j <= |s|
    ensures j <= k <= |s|
    ensures k == j || (j + 1 < k && s[j] == '.' && (forall m :: j + 1 <= m < k ==> IsDigit(s[m])) && (k == |s| || !IsDigit(s[k])))
  {
    if j + 1 < |s| && s[j] == '.' && IsDigit(s[j + 1]) then RunEnd(s, j + 1, IsDigit) else j
  }

  function FirstCredits(s: string, i: nat): Option<string>
    requires i <= |s|
    decreases |s| - i
  {
    var here := CreditsAt(s, i);
    if here.Some? then here
    else if i == |s| then None
    else FirstCredits(s, i + 1)
  }

  /** `\d+(?:\.\d+)?` as a whole: a digit run, then optionally a `.` and a second digit run. */
  predicate IsCreditsNumeral(c: string) {
    var d := RunEnd(c, 0, IsDigit);
    d >= 1 && (d == |c| || (c[d] == '.' && d + 1 < |c| && RunEnd(c, d + 1, IsDigit) == |c|))
  }

  /**
   * A match at `p` is a numeral of the pattern's shape sitting at `p`, followed by a
   * (possibly empty) whitespace run and then `credit`.
   */
  lemma CreditsAtShape(s: string, p: nat)
    requires p <= |s| && CreditsAt(s, p).Some?
    ensures var c := CreditsAt(s, p).value;
      IsCreditsNumeral(c) && OccursAt(s, c, p) && CreditWordAt(s, RunEnd(s, p + |c|, IsSpace))
  {
    var j := RunEnd(s, p, IsDigit);
    var k := FractionEnd(s, j);
    NumeralOfRuns(s, p, j, k);
    var c := s[p..k];
    assert CreditsAt(s, p) == Some(c) && p + |c| == k;
    assert CreditWordAt(s, RunEnd(s, k, IsSpace));
  }

  /** Helper for CreditsAtShape over explicit run boundaries. */
  lemma NumeralOfRuns(s: string, p: nat, j: nat, k: nat)
    requires p < j <= k <= |s|
    requires forall m :: p <= m < j ==> IsDigit(s[m])
    requires j == |s| || !IsDigit(s[j])
    requires k == j || (s[j] == '.' && j + 1 < k && (forall m :: j + 1 <= m < k ==> IsDigit(s[m])) && (k == |s| || !IsDigit(s[k])))
    ensures IsCreditsNumeral(s[p..k])
  {
    var c := s[p..k];
    assert forall m :: 0 <= m < |c| ==> c[m] == s[p + m];
    RunEndExact(c, 0, j - p, IsDigit);
    if k > j {
      RunEndExact(c, j - p + 1, |c|, IsDigit);
    }
  }

  /** `p` is the leftmost position at or after `i` where the pattern matches. */
  predicate LeftmostCredits(s: string, i: nat, p: nat) {
    i <= p <= |s| && CreditsAt(s, p).Some? && forall q :: i <= q < p ==> CreditsAt(s, q).None?
  }

  /** The first match at or after `i` is the match at the leftmost position that has one. */
  lemma {:induction false} FirstCreditsLeftmost(s: string, i: nat)
    requires i <= |s| && FirstCredits(s, i).Some?
    ensures exists p :: LeftmostCredits(s, i, p) && CreditsAt(s, p) == FirstCredits(s, i)
    decreases |s| - i
  {
    if CreditsAt(s, i).None? {
      FirstCreditsLeftmost(s, i + 1);
    } else {
      assert CreditsAt(s, i) == FirstCredits(s, i);
    }
  }

  /**
   * The credits text of a title is the leftmost match of the pattern: a numeral of the
   * pattern's shape, followed by optional whitespace and `credit`.
   */
  lemma FirstCreditsNumeral(s: string, i: nat)
    requires i <= |s| && FirstCredits(s, i).Some?
    ensures exists p :: LeftmostCredits(s, i, p) && CreditsAt(s, p) == FirstCredits(s, i)
    ensures var c := FirstCredits(s, i).value;
      IsCreditsNumeral(c) && c != [] && IsDigit(c[0]) && forall k :: 0 <= k < |c| ==> IsDigit(c[k]) || c[k] == '.'
  {
    FirstCreditsLeftmost(s, i);
    var p :| LeftmostCredits(s, i, p) && CreditsAt(s, p) == FirstCredits(s, i);
    CreditsAtShape(s, p);
    NumeralChars(CreditsAt(s, p).value);
  }

  /** A numeral of the pattern's shape starts with a digit and holds only digits and `.`. */
  lemma NumeralChars(c: string)
    requires IsCreditsNumeral(c)
    ensures c != [] && IsDigit(c[0]) && forall k :: 0 <= k < |c| ==> IsDigit(c[k]) || c[k] == '.'
  {
    var d := RunEnd(c, 0, IsDigit);
    if d < |c| {
      var e := RunEnd(c, d + 1, IsDigit);
      assert forall k :: d + 1 <= k < e ==> IsDigit(c[k]);
    }
  }

  // ---------------------------------------------------------------------------
  // The title line

  const EmDash: char := '\U{2014}'

  /**
   * `title.split('—')[1]?.trim() || title`: the trimmed text between the first em dash
   * and the next one (or the end), or the whole title when that text is blank or there
   * is no em dash.
   */
  function NameOf(title: string): (name: string)
    ensures title != [] ==> name != []
    ensures EmDash !in title ==> name == title
    ensures forall i, j :: SecondPieceAt(title, EmDash, i, j) ==>
      name == (if Trim(title[i + 1..j]) != "" then Trim(title[i + 1..j]) else title)
  {
    var parts := Split(title, EmDash);
    SecondPieces(title, EmDash);
    if |parts| >= 2 && Trim(parts[1]) != "" then Trim(parts[1]) else title
  }

  /** `s[i]` is the first `c` of `s`, and `s[j]` the next one, or `j` the end. */
  predicate SecondPieceAt(s: string, c: char, i: int, j: int) {
    0 <= i < j <= |s| && s[i] == c && c !in s[..i] && c !in s[i + 1..j] && (j == |s| || s[j] == c)
  }

  /** The second piece of `s.split(c)` is the text between the first `c` and the next one, or the end. */
  lemma SecondPieces(s: string, c: char)
    ensures forall i, j :: SecondPieceAt(s, c, i, j) ==> |Split(s, c)| >= 2 && Split(s, c)[1] == s[i + 1..j]
  {
    forall i, j | SecondPieceAt(s, c, i, j)
      ensures |Split(s, c)| >= 2 && Split(s, c)[1] == s[i + 1..j]
    {
      SecondPiece(s, c, i, j);
    }
  }

  lemma SecondPiece(s: string, c: char, i: nat, j: nat)
    requires SecondPieceAt(s, c, i, j)
    ensures |Split(s, c)| >= 2 && Split(s, c)[1] == s[i + 1..j]
  {
    FirstIndex(s, c, i);
    var t := s[i + 1..];
    assert Split(s, c) == [s[..i]] + Split(t, c);
    if j < |s| {
      assert t[..j - i - 1] == s[i + 1..j];
      FirstIndex(t, c, j - i - 1);
      assert Split(t, c)[0] == t[..j - i - 1];
    } else {
      assert t == s[i + 1..j];
      NoIndex(t, c);
      assert Split(t, c) == [t];
    }
  }

  /** The first `c` of `s` is at `i` when `s[i]` is one and `s[..i]` holds none. */
  lemma FirstIndex(s: string, c: char, i: nat)
    requires i < |s| && s[i] == c && c !in s[..i]
    ensures IndexOf(s, c) == i
  {
    forall k | 0 <= k < i ensures s[k] != c {
      assert s[..i][k] == s[k];
    }
  }

  /** A string without `c` has no index of it. */
  lemma NoIndex(s: string, c: char)
    requires c !in s
    ensures IndexOf(s, c) == -1
  {
  }

  /** The item a course block's title text yields, if any. */
  function TitleItem(text: string): Option<CatalogItem> {
    var title := Trim(text);
    if title == "" then None
    else
      match FirstCodeGroups(title, 0)
      case None => None
      case Some(g) =>
        var code := RemoveSpaces(g.dept + g.number);
        if code == "" then None
        else Some(CatalogItem(code, NameOf(title), FirstCredits(title, 0), Some(g.dept)))
  }

  /** What one course block contributes: its item, or nothing. */
  function ItemsOf(text: string): seq<CatalogItem> {
    match TitleItem(text)
    case Some(item) => [item]
    case None => []
  }

  function CatalogItems(titles: seq<string>): seq<CatalogItem> {
    if titles == [] then []
    else CatalogItems(titles[..|titles| - 1]) + ItemsOf(titles[|titles| - 1])
  }

  /** `parseGuideCatalog`, over the title text of each course block. */
  method ParseGuideCatalog(titles: seq<string>) returns (items: seq<CatalogItem>)
    ensures items == CatalogItems(titles)
  {
    items := [];
    for k := 0 to |titles|
      invariant items == CatalogItems(titles[..k])
    {
      CatalogItemsStep(titles, k);
      var item := TitleItem(titles[k]);
      if item.Some? {
        items := items + [item.value];
      }
    }
    assert titles[..|titles|] == titles;
  }

  lemma CatalogItemsStep(titles: seq<string>, k: nat)
    requires k < |titles|
    ensures CatalogItems(titles[..k + 1]) == CatalogItems(titles[..k]) + ItemsOf(titles[k])
  {
    assert titles[..k + 1][..k] == titles[..k];
  }

  /** A well-formed item: a code as the pattern admits it, its department the code's letter group, and a name. */
  predicate WellFormedItem(c: CatalogItem) {
    IsCode(c.code) && c.name != "" && c.dept.Some? &&
    StartsWith(c.code, c.dept.value) && RunEnd(c.code, 0, IsDeptChar) == |c.dept.value|
  }

  lemma TitleItemWellFormed(text: string)
    requires TitleItem(text).Some?
    ensures WellFormedItem(TitleItem(text).value)
    ensures var c := TitleItem(text).value; c.credits.Some? ==> c.credits.value != [] && IsDigit(c.credits.value[0])
  {
    var title := Trim(text);
    var g := FirstCodeGroups(title, 0).value;
    CodeGroupsShape(title, g.start);
    CodeHasNoSpace(g.dept + g.number);
    assert (g.dept + g.number)[..|g.dept|] == g.dept;
    if FirstCredits(title, 0).Some? {
      FirstCreditsNumeral(title, 0);
    }
  }

  lemma CodeHasNoSpace(c: string)
    requires IsCode(c)
    ensures RemoveSpaces(c) == c
  {
    IsCodeChars(c);
    RemoveSpacesKeeps(c);
  }

  /** Every item is well formed, and each title gives at most one. */
  lemma {:induction false} CatalogItemsWellFormed(titles: seq<string>)
    ensures |CatalogItems(titles)| <= |titles|
    ensures forall k :: 0 <= k < |CatalogItems(titles)| ==> WellFormedItem(CatalogItems(titles)[k])
  {
    if titles != [] {
      var last := titles[|titles| - 1];
      CatalogItemsWellFormed(titles[..|titles| - 1]);
      if TitleItem(last).Some? {
        TitleItemWellFormed(last);
      }
    }
  }

  /** A blank title, or one without a code, contributes nothing. */
  lemma TitleWithoutCode(text: string)
    requires Trim(text) == "" || forall j :: 0 <= j <= |Trim(text)| ==> CodeGroupsAt(Trim(text), j).None?
    ensures TitleItem(text).None?
  {
  }

  // ---------------------------------------------------------------------------
  // upsertCatalog

  predicate Kept(c: CatalogItem) { c.code != "" && c.name != "" }

  /**
   * One item: the department is created (named by its code) if absent and never
   * updated; an existing course gets the item's name, and its credits and department
   * when the item has them (an `undefined` field leaves the column as it is); an
   * absent course is created.
   */
  function CatalogStep(t: CourseTables, c: CatalogItem): CourseTables {
    if !Kept(c) then t
    else
      var deptId := if c.dept.Some? && c.dept.value != "" then c.dept else None;
      var departments :=
        if deptId.Some? && deptId.value !in t.departments then t.departments[deptId.value := deptId.value]
        else t.departments;
      var course :=
        if c.code in t.courses then
          var was := t.courses[c.code];
          was.(name := c.name, credits := if c.credits.Some? then c.credits else was.credits,
               dept := if deptId.Some? then deptId else was.dept)
        else Course(c.name, c.credits, None, deptId);
      CourseTables(departments, t.courses[c.code := course])
  }

  function CatalogRun(t: CourseTables, items: seq<CatalogItem>): CourseTables {
    if items == [] then t else CatalogStep(CatalogRun(t, items[..|items| - 1]), items[|items| - 1])
  }

  method UpsertCatalog(db: Database, items: seq<CatalogItem>)
    modifies db`departments, db`courses
    ensures db.CourseRows() == CatalogRun(old(db.CourseRows()), items)
  {
    for k := 0 to |items|
      invariant db.CourseRows() == CatalogRun(old(db.CourseRows()), items[..k])
    {
      assert items[..k + 1][..k] == items[..k];
      var c := items[k];
      if c.code == "" || c.name == "" {
        continue;
      }
      var deptId: Option<string> := None;
      if c.dept.Some? && c.dept.value != "" {
        if c.dept.value !in db.departments {
          db.departments := db.departments[c.dept.value := c.dept.value];
        }
        deptId := c.dept;
      }
      if c.code in db.courses {
        var was := db.courses[c.code];
        var credits := if c.credits.Some? then c.credits else was.credits;
        var dept := if deptId.Some? then deptId else was.dept;
        db.courses := db.courses[c.code := was.(name := c.name, credits := credits, dept := dept)];
      } else {
        db.courses := db.courses[c.code := Course(c.name, c.credits, None, deptId)];
      }
    }
    assert items[..|items|] == items;
  }

  /** The codes of the items that are not skipped. */
  function KeptCodes(items: seq<CatalogItem>): set<string> {
    set k | 0 <= k < |items| && Kept(items[k]) :: items[k].code
  }

  /** The last kept item with the given code. */
  function LastWithCode(items: seq<CatalogItem>, code: string): (c: CatalogItem)
    requires code in KeptCodes(items)
    ensures Kept(c) && c.code == code && c in items
  {
    var last := items[|items| - 1];
    if Kept(last) && last.code == code then last
    else
      assert code in KeptCodes(items[..|items| - 1]) by {
        var k :| 0 <= k < |items| && Kept(items[k]) && items[k].code == code;
        assert k < |items| - 1;
        assert items[..|items| - 1][k] == items[k];
      }
      LastWithCode(items[..|items| - 1], code)
  }

  lemma KeptCodesSnoc(items: seq<CatalogItem>)
    requires items != []
    ensures var last := items[|items| - 1];
      KeptCodes(items) == KeptCodes(items[..|items| - 1]) + (if Kept(last) then {last.code} else {})
  {
    var init := items[..|items| - 1];
    forall code | code in KeptCodes(items)
      ensures code in KeptCodes(init) + (if Kept(items[|items| - 1]) then {items[|items| - 1].code} else {})
    {
      var k :| 0 <= k < |items| && Kept(items[k]) && items[k].code == code;
      if k < |items| - 1 {
        assert init[k] == items[k];
      }
    }
    forall code | code in KeptCodes(init)
      ensures code in KeptCodes(items)
    {
      var k :| 0 <= k < |init| && Kept(init[k]) && init[k].code == code;
      assert items[k] == init[k];
    }
  }

  /**
   * The net effect of some items on one course: the name, credits and department they
   * overwrite (`None` where none of them sets the field).
   */
  datatype Patch = Patch(name: Option<string>, credits: Option<string>, dept: Option<string>)

  const NoPatch := Patch(None, None, None)

  /** A course row that the first item for its code fills in. */
  const Blank := Course("", None, None, None)

  function DeptId(c: CatalogItem): Option<string> {
    if c.dept.Some? && c.dept.value != "" then c.dept else None
  }

  function ItemPatch(c: CatalogItem): Patch {
    Patch(Some(c.name), c.credits, DeptId(c))
  }

  function Override(a: Option<string>, b: Option<string>): Option<string> {
    if b.Some? then b else a
  }

  /** `p` followed by `q`. */
  function Then(p: Patch, q: Patch): Patch {
    Patch(Override(p.name, q.name), Override(p.credits, q.credits), Override(p.dept, q.dept))
  }

  function Apply(p: Patch, c: Course): Course {
    Course(Override(Some(c.name), p.name).value, Override(c.credits, p.credits), c.level, Override(c.dept, p.dept))
  }

  /** The combined patch of the kept items with the given code, in order. */
  function PatchOf(items: seq<CatalogItem>, code: string): Patch {
    if items == [] then NoPatch
    else
      var last := items[|items| - 1];
      var p := PatchOf(items[..|items| - 1], code);
      if Kept(last) && last.code == code then Then(p, ItemPatch(last)) else p
  }

  /**
   * What becomes of a course code. A code no kept item has is left exactly as it was
   * (present or absent). A code some kept item has is present afterwards: its row is
   * the one it had (or a blank one) with each field the items set overwritten by the
   * last item that sets it, so its name is the last such item's name.
   */
  lemma {:induction false} CatalogCourseFate(t: CourseTables, items: seq<CatalogItem>, code: string)
    ensures var r := CatalogRun(t, items);
      (code !in KeptCodes(items) ==>
        PatchOf(items, code) == NoPatch &&
        (code in r.courses <==> code in t.courses) &&
        (code in t.courses ==> r.courses[code] == t.courses[code])) &&
      (code in KeptCodes(items) ==>
        code in r.courses &&
        r.courses[code] == Apply(PatchOf(items, code), if code in t.courses then t.courses[code] else Blank) &&
        PatchOf(items, code).name == Some(LastWithCode(items, code).name))
  {
    if items != [] {
      CatalogCourseFate(t, items[..|items| - 1], code);
      KeptCodesSnoc(items);
    }
  }

  /**
   * Departments are only ever added: an existing department keeps its name, and a new
   * one is the (non-empty) department of some kept item, named by its own code.
   */
  lemma {:induction false} CatalogDepartmentFate(t: CourseTables, items: seq<CatalogItem>, d: string)
    ensures var r := CatalogRun(t, items);
      (d in t.departments ==> d in r.departments && r.departments[d] == t.departments[d]) &&
      (d in r.departments && d !in t.departments ==>
        r.departments[d] == d && d != "" && exists k :: 0 <= k < |items| && Kept(items[k]) && items[k].dept == Some(d))
  {
    if items != [] {
      var init := items[..|items| - 1];
      CatalogDepartmentFate(t, init, d);
      var r0 := CatalogRun(t, init);
      if d in CatalogRun(t, items).departments && d !in t.departments && d in r0.departments {
        var k :| 0 <= k < |init| && Kept(init[k]) && init[k].dept == Some(d);
        assert items[k] == init[k];
      }
    }
  }

  /** A department named by a kept item is present after the run. */
  lemma {:induction false} CatalogDeptPresent(t: CourseTables, items: seq<CatalogItem>, k: nat)
    requires k < |items| && Kept(items[k]) && items[k].dept.Some? && items[k].dept.value != ""
    ensures items[k].dept.value in CatalogRun(t, items).departments
  {
    var init := items[..|items| - 1];
    if k < |items| - 1 {
      assert init[k] == items[k];
      CatalogDeptPresent(t, init, k);
      CatalogDepartmentFate(CatalogRun(t, init), [items[|items| - 1]], items[k].dept.value);
      assert [items[|items| - 1]][..0] == [];
    }
  }

  /** Running the same items again leaves the tables as they are. */
  lemma CatalogRunIdempotent(t: CourseTables, items: seq<CatalogItem>)
    ensures CatalogRun(CatalogRun(t, items), items) == CatalogRun(t, items)
  {
    var once := CatalogRun(t, items);
    var twice := CatalogRun(once, items);
    forall code
      ensures (code in twice.courses <==> code in once.courses)
      ensures code in once.courses ==> twice.courses[code] == once.courses[code]
    {
      CatalogCourseFate(t, items, code);
      CatalogCourseFate(once, items, code);
    }
    forall d
      ensures (d in twice.departments <==> d in once.departments)
      ensures d in once.departments ==> twice.departments[d] == once.departments[d]
    {
      CatalogDepartmentFate(once, items, d);
      if d in twice.departments && d !in once.departments {
        var k :| 0 <= k < |items| && Kept(items[k]) && items[k].dept == Some(d);
        CatalogDeptPresent(t, items, k);
      }
    }
    assert twice.courses == once.courses;
    assert twice.departments == once.departments;
  }
}
