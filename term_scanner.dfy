/**
 * The degree-plan text scanner of lib/pdf.ts (`extractCoursesFromPdf`, after the
 * PDF text has been extracted) and its copy `extractCourses` in
 * scripts/parse-degree-plan.ts: lines are scanned in order, a term line sets the
 * current term, every course code on a line is emitted with the current term, and
 * the result keeps the first entry of each code|term key.
 */
module TermScanner {
  import opened Common
  import opened Text

  /** One extracted entry: a course code and the term in force where it was seen. */
  datatype Extracted = Extracted(code: string, term: Option<string>)

  /** The alternatives of `(Fall|Winter|Spring|Summer)`, in the order the regex tries them. */
  const Seasons: seq<string> := ["Fall", "Winter", "Spring", "Summer"]

  // ---------------------------------------------------------------------------
  // /(Fall|Winter|Spring|Summer)\s+(20\d{2})/i

  /** `w` matches at `s[i..]` ignoring ASCII case (the `i` flag). */
  predicate WordAtCI(s: string, i: nat, w: string) {
    i + |w| <= |s| && forall k :: 0 <= k < |w| ==> LowerChar(s[i + k]) == LowerChar(w[k])
  }

  /** `20\d{2}` at `s[j..]` */
  predicate YearAt(s: string, j: nat) {
    j + 4 <= |s| && s[j] == '2' && s[j + 1] == '0' && IsDigit(s[j + 2]) && IsDigit(s[j + 3])
  }

  /**
   * The normalised term of a match of alternative `w` at `i`: the year, `-`, and the
   * season with its first letter upper-cased and the rest lower-cased. `\s+` must
   * take the whole whitespace run (a shorter run leaves a space where `2` is needed).
   */
  function SeasonMatchAt(s: string, i: nat, w: string): Option<string>
    requires i <= |s|
  {
    if !WordAtCI(s, i, w) || |w| == 0 then None
    else
      var j := RunEnd(s, i + |w|, IsSpace);
      if j > i + |w| && YearAt(s, j)
      then Some(s[j..j + 4] + "-" + ([UpperChar(s[i])] + Lower(s[i + 1..i + |w|])))
      else None
  }

  /** The alternatives from `k` on, tried in order at position `i`. */
  function TermMatchFrom(s: string, i: nat, k: nat): Option<string>
    requires i <= |s| && k <= |Seasons|
    decreases |Seasons| - k
  {
    if k == |Seasons| then None
    else match SeasonMatchAt(s, i, Seasons[k])
      case Some(t) => Some(t)
      case None => TermMatchFrom(s, i, k + 1)
  }

  function TermMatchAt(s: string, i: nat): Option<string>
    requires i <= |s|
  {
    TermMatchFrom(s, i, 0)
  }

  /** The leftmost match at or after `i` (`line.match` without the `g` flag). */
  function FindTerm(s: string, i: nat): Option<string>
    requires i <= |s|
    decreases |s| - i
  {
    match TermMatchAt(s, i)
    case Some(t) => Some(t)
    case None => if i == |s| then None else FindTerm(s, i + 1)
  }

  /** The term a line announces, if it announces one. */
  function TermOf(line: string): Option<string> {
    FindTerm(line, 0)
  }

  // ---------------------------------------------------------------------------
  // /\b([A-Z&]{2,})\s+(\d{3,4}[A-Z]?)\b/g  (no `i` flag)

  predicate IsDeptChar(c: char) { IsUpper(c) || c == '&' }

  /** `\b` at position `k`: exactly one of the neighbouring characters is a word character. */
  predicate Boundary(s: string, k: nat)
    requires k <= |s|
  {
    (k > 0 && IsWordChar(s[k - 1])) != (k < |s| && IsWordChar(s[k]))
  }

  /** A code match: the department group, the number group and where the match ends. */
  datatype CodeMatch = CodeMatch(dept: string, number: string, end: nat)

  /**
   * The number group with exactly `n` digits starting at `w`: first with the optional
   * letter, then without it, each followed by `\b`.
   */
  function NumberWith(s: string, i: nat, d: nat, w: nat, n: nat): Option<CodeMatch>
    requires i <= d <= w && w + n <= |s|
  {
    var p := w + n;
    if p < |s| && IsUpper(s[p]) && Boundary(s, p + 1) then Some(CodeMatch(s[i..d], s[w..p + 1], p + 1))
    else if Boundary(s, p) then Some(CodeMatch(s[i..d], s[w..p], p))
    else None
  }

  /**
   * A match starting at `i`. The department run and the whitespace run are maximal
   * (giving back a character leaves one that the next element cannot take); the
   * number takes four digits when it can, then three.
   */
  function CodeMatchAt(s: string, i: nat): (r: Option<CodeMatch>)
    requires i <= |s|
    ensures r.Some? ==> i < r.value.end <= |s|
  {
    if !Boundary(s, i) then None
    else
      var d := RunEnd(s, i, IsDeptChar);
      if d - i < 2 then None
      else
        var w := RunEnd(s, d, IsSpace);
        if w == d then None
        else
          var e := RunEnd(s, w, IsDigit);
          var four := if e - w >= 4 then NumberWith(s, i, d, w, 4) else None;
          if four.Some? then four
          else if e - w >= 3 then NumberWith(s, i, d, w, 3)
          else None
  }

  /** All matches from position `i` on, left to right, each search resuming at the end of the last match. */
  function MatchesFrom(s: string, i: nat): seq<CodeMatch>
    requires i <= |s|
    decreases |s| - i
  {
    match CodeMatchAt(s, i)
    case Some(m) => [m] + MatchesFrom(s, m.end)
    case None => if i == |s| then [] else MatchesFrom(s, i + 1)
  }

  /** `${m[1]}${m[2]}`.toUpperCase() */
  function CodeOf(m: CodeMatch): string {
    Upper(m.dept + m.number)
  }

  /** The codes of `line.matchAll(...)`, in order. */
  function CodesOf(line: string): seq<string> {
    seq(|MatchesFrom(line, 0)|, k requires 0 <= k < |MatchesFrom(line, 0)| => CodeOf(MatchesFrom(line, 0)[k]))
  }

  // ---------------------------------------------------------------------------
  // Shape of what the two regexes produce

  /** A normalised term: `20dd`, `-`, then one of the four season names as written in `Seasons`. */
  predicate IsTerm(t: string) {
    |t| >= 5 && YearAt(t, 0) && t[4] == '-' && t[5..] in Seasons
  }

  /** The number group: three or four digits, then at most one upper-case letter. */
  predicate IsNumberGroup(n: string) {
    var e := RunEnd(n, 0, IsDigit);
    (e == 3 || e == 4) && (e == |n| || (e + 1 == |n| && IsUpper(n[e])))
  }

  /** A course code as emitted: an `[A-Z&]` department of length two or more directly followed by the number group. */
  predicate IsCode(c: string) {
    var d := RunEnd(c, 0, IsDeptChar);
    d >= 2 && IsNumberGroup(c[d..])
  }

  lemma CasedWord(s: string, i: nat, w: string)
    requires WordAtCI(s, i, w) && |w| >= 1
    requires IsUpper(w[0]) && forall k :: 1 <= k < |w| ==> IsLower(w[k])
    ensures [UpperChar(s[i])] + Lower(s[i + 1..i + |w|]) == w
  {
    assert LowerChar(s[i]) == LowerChar(w[0]);
    var low := Lower(s[i + 1..i + |w|]);
    forall k | 1 <= k < |w| ensures low[k - 1] == w[k] {
      assert LowerChar(s[i + k]) == LowerChar(w[k]);
    }
  }

  lemma {:induction false} TermMatchFromIsTerm(s: string, i: nat, k: nat)
    requires i <= |s| && k <= |Seasons|
    ensures TermMatchFrom(s, i, k).Some? ==> IsTerm(TermMatchFrom(s, i, k).value)
    decreases |Seasons| - k
  {
    if k < |Seasons| {
      if SeasonMatchAt(s, i, Seasons[k]).Some? {
        SeasonMatchIsTerm(s, i, Seasons[k]);
      } else {
        TermMatchFromIsTerm(s, i, k + 1);
      }
    }
  }

  /** A match of one alternative is a normalised term. */
  lemma SeasonMatchIsTerm(s: string, i: nat, w: string)
    requires i <= |s| && w in Seasons && SeasonMatchAt(s, i, w).Some?
    ensures IsTerm(SeasonMatchAt(s, i, w).value)
    ensures WordAtCI(s, i, w)
    ensures exists j :: (i + |w| < j && YearAt(s, j) && (forall k :: i + |w| <= k < j ==> IsSpace(s[k])) &&
      SeasonMatchAt(s, i, w).value == s[j..j + 4] + "-" + w)
  {
    SeasonCased(w);
    CasedWord(s, i, w);
    var j := RunEnd(s, i + |w|, IsSpace);
    TermShape(s[j..j + 4], w);
    assert SeasonMatchAt(s, i, w).value == s[j..j + 4] + "-" + w;
  }

  /** Each season name is capitalised: an upper-case letter, then lower-case letters. */
  lemma SeasonCased(w: string)
    requires w in Seasons
    ensures |w| >= 1 && IsUpper(w[0]) && forall k :: 1 <= k < |w| ==> IsLower(w[k])
  {
  }

  /** A year `20dd`, `-` and a season name make a normalised term. */
  lemma TermShape(year: string, w: string)
    requires |year| == 4 && YearAt(year, 0) && w in Seasons
    ensures IsTerm(year + "-" + w)
  {
    var t := year + "-" + w;
    assert t[5..] == w;
  }

  /**
   * A line announces a term exactly when some position starts a season word (any
   * case), whitespace and `20dd`; the term it announces is `<year>-<Season>`.
   */
  lemma {:induction false} FindTermSpec(s: string, i: nat)
    requires i <= |s|
    ensures FindTerm(s, i).Some? <==> exists j :: i <= j <= |s| && TermMatchAt(s, j).Some?
    ensures FindTerm(s, i).Some? ==> IsTerm(FindTerm(s, i).value)
    ensures forall j :: LeftmostTerm(s, i, j) ==> FindTerm(s, i) == TermMatchAt(s, j)
  {
    FindTermFound(s, i);
    FindTermShape(s, i);
    forall j | LeftmostTerm(s, i, j) ensures FindTerm(s, i) == TermMatchAt(s, j) {
      FindTermLeftmost(s, i, j);
    }
  }

  /** `j` is the leftmost position at or after `i` where a season alternative matches. */
  predicate LeftmostTerm(s: string, i: nat, j: nat) {
    i <= j <= |s| && TermMatchAt(s, j).Some? && forall q :: i <= q < j ==> TermMatchAt(s, q).None?
  }

  /** The search from `i` gives the match at the leftmost matching position. */
  lemma FindTermLeftmost(s: string, i: nat, j: nat)
    requires LeftmostTerm(s, i, j)
    ensures FindTerm(s, i) == TermMatchAt(s, j)
  {
    FindTermSkip(s, i, j);
    var m := TermMatchAt(s, j);
    assert m.Some?;
  }

  /** Positions without a match are passed over. */
  lemma {:induction false} FindTermSkip(s: string, i: nat, j: nat)
    requires i <= j <= |s| && forall q :: i <= q < j ==> TermMatchAt(s, q).None?
    ensures FindTerm(s, i) == FindTerm(s, j)
    decreases j - i
  {
    var m := TermMatchAt(s, i);
    if i < j {
      assert FindTerm(s, i) == FindTerm(s, i + 1);
      FindTermSkip(s, i + 1, j);
    }
  }

  lemma FindTermFound(s: string, i: nat)
    requires i <= |s|
    ensures FindTerm(s, i).Some? <==> exists j :: i <= j <= |s| && TermMatchAt(s, j).Some?
  {
    if forall j :: i <= j <= |s| ==> TermMatchAt(s, j).None? {
      FindTermNone(s, i);
    }
    if exists j :: i <= j <= |s| && TermMatchAt(s, j).Some? {
      var j :| i <= j <= |s| && TermMatchAt(s, j).Some?;
      FindTermReaches(s, i, j);
    }
  }

  /** With no match at or after `i`, the leftmost search finds nothing. */
  lemma {:induction false} FindTermNone(s: string, i: nat)
    requires i <= |s| && forall j :: i <= j <= |s| ==> TermMatchAt(s, j).None?
    ensures FindTerm(s, i).None?
    decreases |s| - i
  {
    var m := TermMatchAt(s, i);
    if i < |s| {
      assert FindTerm(s, i) == FindTerm(s, i + 1);
      FindTermNone(s, i + 1);
    }
  }

  /** A match at `j` is found by a search starting anywhere up to `j`. */
  lemma {:induction false} FindTermReaches(s: string, i: nat, j: nat)
    requires i <= j <= |s| && TermMatchAt(s, j).Some?
    ensures FindTerm(s, i).Some?
    decreases j - i
  {
    var m := TermMatchAt(s, i);
    if i < j && m.None? {
      assert FindTerm(s, i) == FindTerm(s, i + 1);
      FindTermReaches(s, i + 1, j);
    }
  }

  lemma {:induction false} FindTermShape(s: string, i: nat)
    requires i <= |s|
    ensures FindTerm(s, i).Some? ==> IsTerm(FindTerm(s, i).value)
    decreases |s| - i
  {
    TermMatchFromIsTerm(s, i, 0);
    if TermMatchAt(s, i).None? && i < |s| {
      FindTermShape(s, i + 1);
    }
  }

  lemma NumberWithShape(s: string, i: nat, d: nat, w: nat, n: nat)
    requires i <= d <= w && w + n <= |s|
    requires (n == 3 || n == 4) && forall k :: w <= k < w + n ==> IsDigit(s[k])
    requires d - i >= 2 && forall k :: i <= k < d ==> IsDeptChar(s[k])
    requires NumberWith(s, i, d, w, n).Some?
    ensures var m := NumberWith(s, i, d, w, n).value; IsCode(m.dept + m.number) && CodeOf(m) == m.dept + m.number
  {
    var m := NumberWith(s, i, d, w, n).value;
    var p := w + n;
    if p < |s| && IsUpper(s[p]) && Boundary(s, p + 1) {
      assert m.number == s[w..p + 1];
      NumberGroupSlice(s, w, n, p + 1);
    } else {
      assert m.number == s[w..p];
      NumberGroupSlice(s, w, n, p);
    }
    assert m.dept == s[i..d];
    forall k | 0 <= k < |m.dept|
      ensures IsDeptChar(m.dept[k])
    {
      assert m.dept[k] == s[i + k];
    }
    CodeShape(m.dept, m.number);
  }

  /** A department run and a number group make a code that upper-casing leaves alone. */
  lemma CodeShape(dept: string, number: string)
    requires |dept| >= 2 && forall k :: 0 <= k < |dept| ==> IsDeptChar(dept[k])
    requires IsNumberGroup(number)
    ensures IsCode(dept + number) && Upper(dept + number) == dept + number
  {
    DeptNumberIsCode(dept, number);
    IsCodeChars(dept + number);
    UpperKeeps(dept + number);
  }

  lemma NumberGroupSlice(s: string, w: nat, n: nat, p: nat)
    requires (n == 3 || n == 4) && w + n <= p <= |s|
    requires forall k :: w <= k < w + n ==> IsDigit(s[k])
    requires p == w + n || (p == w + n + 1 && IsUpper(s[w + n]))
    ensures IsNumberGroup(s[w..p])
  {
    var g := s[w..p];
    assert forall k :: 0 <= k < |g| ==> g[k] == s[w + k];
    RunEndExact(g, 0, n, IsDigit);
  }

  lemma DeptNumberIsCode(dept: string, number: string)
    requires |dept| >= 2 && forall k :: 0 <= k < |dept| ==> IsDeptChar(dept[k])
    requires IsNumberGroup(number)
    ensures IsCode(dept + number) && RunEnd(dept + number, 0, IsDeptChar) == |dept|
  {
    var c := dept + number;
    assert c[..|dept|] == dept && c[|dept|..] == number;
    assert IsDigit(number[0]);
    RunEndExact(c, 0, |dept|, IsDeptChar);
  }

  /** A run that holds up to `j` and stops there ends at `j`. */
  lemma {:induction false} RunEndExact(s: string, i: nat, j: nat, p: char -> bool)
    requires i <= j <= |s|
    requires forall k :: i <= k < j ==> p(s[k])
    requires j == |s| || !p(s[j])
    ensures RunEnd(s, i, p) == j
    decreases j - i
  {
    if i < j {
      RunEndExact(s, i + 1, j, p);
    }
  }

  lemma CodeMatchAtShape(s: string, i: nat)
    requires i <= |s| && CodeMatchAt(s, i).Some?
    ensures var m := CodeMatchAt(s, i).value; IsCode(m.dept + m.number) && CodeOf(m) == m.dept + m.number
  {
    var d := RunEnd(s, i, IsDeptChar);
    var w := RunEnd(s, d, IsSpace);
    var e := RunEnd(s, w, IsDigit);
    if e - w >= 4 && NumberWith(s, i, d, w, 4).Some? {
      NumberWithShape(s, i, d, w, 4);
    } else {
      NumberWithShape(s, i, d, w, 3);
    }
  }

  lemma {:induction false} MatchesFromShape(s: string, i: nat)
    requires i <= |s|
    ensures forall k :: 0 <= k < |MatchesFrom(s, i)| ==>
      var m := MatchesFrom(s, i)[k]; IsCode(m.dept + m.number) && CodeOf(m) == m.dept + m.number
    decreases |s| - i
  {
    match CodeMatchAt(s, i)
    case Some(m) =>
      CodeMatchAtShape(s, i);
      MatchesFromShape(s, m.end);
    case None =>
      if i < |s| {
        MatchesFromShape(s, i + 1);
      }
  }

  /**
   * Every emitted code is the department followed directly by the number: the
   * whitespace between them is gone and upper-casing changes nothing, since the
   * pattern only admits upper-case letters, `&` and digits.
   */
  lemma CodesOfShape(line: string)
    ensures forall k :: 0 <= k < |CodesOf(line)| ==> IsCode(CodesOf(line)[k])
  {
    MatchesFromShape(line, 0);
  }

  /** Codes hold only upper-case letters, `&` and digits: never a lower-case letter, a space or `|`. */
  lemma IsCodeChars(c: string)
    requires IsCode(c)
    ensures forall k :: 0 <= k < |c| ==> IsUpper(c[k]) || c[k] == '&' || IsDigit(c[k])
  {
    var d := RunEnd(c, 0, IsDeptChar);
    var n := c[d..];
    var e := RunEnd(n, 0, IsDigit);
    forall k | 0 <= k < |c| ensures IsUpper(c[k]) || c[k] == '&' || IsDigit(c[k]) {
      if k >= d {
        assert c[k] == n[k - d];
      }
    }
  }

  // ---------------------------------------------------------------------------
  // The scan over lines

  /** The current term after the given lines: the term of the last line that announces one. */
  function TermAfter(lines: seq<string>): Option<string> {
    if lines == [] then None
    else match TermOf(lines[|lines| - 1])
      case Some(t) => Some(t)
      case None => TermAfter(lines[..|lines| - 1])
  }

  function Tag(codes: seq<string>, term: Option<string>): (r: seq<Extracted>)
    ensures |r| == |codes|
    ensures forall k :: 0 <= k < |r| ==> r[k] == Extracted(codes[k], term)
  {
    seq(|codes|, k requires 0 <= k < |codes| => Extracted(codes[k], term))
  }

  /** The raw matches of all lines, in order, each tagged with the term in force on its line. */
  function Scan(lines: seq<string>): seq<Extracted> {
    if lines == [] then []
    else Scan(lines[..|lines| - 1]) + Tag(CodesOf(lines[|lines| - 1]), TermAfter(lines))
  }

  /** The dedup key `${c.code}|${c.term || ''}`. */
  function Key(e: Extracted): string {
    e.code + "|" + e.term.GetOr("")
  }

  function KeySet(xs: seq<Extracted>): set<string> {
    set k | 0 <= k < |xs| :: Key(xs[k])
  }

  /** First-occurrence filtering by key, as `filter` with a `seen` set does it. */
  function Dedup(xs: seq<Extracted>): seq<Extracted> {
    if xs == [] then []
    else
      var d := Dedup(xs[..|xs| - 1]);
      if Key(xs[|xs| - 1]) in KeySet(xs[..|xs| - 1]) then d else d + [xs[|xs| - 1]]
  }

  /** The scanner's result for a text, as a specification. */
  function Extract(text: string): seq<Extracted> {
    Dedup(Scan(SplitLines(text)))
  }

  lemma KeySetSnoc(xs: seq<Extracted>, x: Extracted)
    ensures KeySet(xs + [x]) == KeySet(xs) + {Key(x)}
  {
    var ys := xs + [x];
    assert forall k :: 0 <= k < |xs| ==> ys[k] == xs[k];
    assert ys[|xs|] == x;
  }

  /** The line loop: the current term is updated before the line's codes are pushed. */
  method ScanLines(lines: seq<string>) returns (raw: seq<Extracted>)
    ensures raw == Scan(lines)
  {
    raw := [];
    var currentTerm: Option<string> := None;
    for i := 0 to |lines|
      invariant raw == Scan(lines[..i])
      invariant currentTerm == TermAfter(lines[..i])
    {
      ScanStep(lines, i);
      var term := TermOf(lines[i]);
      if term.Some? {
        currentTerm := term;
      }
      raw := PushCodes(raw, CodesOf(lines[i]), currentTerm);
    }
    assert lines[..|lines|] == lines;
  }

  /** The inner loop: each code of the line is pushed with the current term. */
  method PushCodes(raw: seq<Extracted>, codes: seq<string>, term: Option<string>) returns (out: seq<Extracted>)
    ensures out == raw + Tag(codes, term)
  {
    out := raw;
    for j := 0 to |codes|
      invariant out == raw + Tag(codes[..j], term)
    {
      TagSnoc(codes, j, term);
      out := out + [Extracted(codes[j], term)];
    }
    assert codes[..|codes|] == codes;
  }

  /** One more line: its term, if any, takes over, then its codes are tagged. */
  lemma ScanStep(lines: seq<string>, i: nat)
    requires i < |lines|
    ensures TermAfter(lines[..i + 1]) == if TermOf(lines[i]).Some? then TermOf(lines[i]) else TermAfter(lines[..i])
    ensures Scan(lines[..i + 1]) == Scan(lines[..i]) + Tag(CodesOf(lines[i]), TermAfter(lines[..i + 1]))
  {
    assert lines[..i + 1][..i] == lines[..i];
  }

  lemma TagSnoc(codes: seq<string>, j: nat, term: Option<string>)
    requires j < |codes|
    ensures Tag(codes[..j + 1], term) == Tag(codes[..j], term) + [Extracted(codes[j], term)]
  {
  }

  /** The `filter` over `out` with the `seen` set. */
  method KeepFirst(raw: seq<Extracted>) returns (out: seq<Extracted>)
    ensures out == Dedup(raw)
  {
    var seen: set<string> := {};
    out := [];
    for k := 0 to |raw|
      invariant seen == KeySet(raw[..k])
      invariant out == Dedup(raw[..k])
    {
      assert raw[..k + 1][..k] == raw[..k];
      KeySetSnoc(raw[..k], raw[k]);
      var key := Key(raw[k]);
      if key !in seen {
        seen := seen + {key};
        out := out + [raw[k]];
      }
    }
    assert raw[..|raw|] == raw;
  }

  /** `extractCoursesFromPdf` after `pdfParse`, and `extractCourses`. */
  method ExtractCourses(text: string) returns (out: seq<Extracted>)
    ensures out == Extract(text)
  {
    var raw := ScanLines(SplitLines(text));
    out := KeepFirst(raw);
  }

  // ---------------------------------------------------------------------------
  // Properties of the term context

  /** Lines before any term line leave the current term absent. */
  lemma {:induction false} TermAfterNone(lines: seq<string>)
    requires forall k :: 0 <= k < |lines| ==> TermOf(lines[k]).None?
    ensures TermAfter(lines) == None
  {
    if lines != [] {
      TermAfterNone(lines[..|lines| - 1]);
    }
  }

  /** The current term is that of the latest term line, however many lines follow it. */
  lemma {:induction false} TermAfterLatest(lines: seq<string>, k: nat)
    requires k < |lines| && TermOf(lines[k]).Some?
    requires forall j :: k < j < |lines| ==> TermOf(lines[j]).None?
    ensures TermAfter(lines) == TermOf(lines[k])
  {
    if k < |lines| - 1 {
      TermAfterLatest(lines[..|lines| - 1], k);
    }
  }

  /** Every term in force is a normalised `<year>-<Season>`. */
  lemma {:induction false} TermAfterIsTerm(lines: seq<string>)
    ensures TermAfter(lines).Some? ==> IsTerm(TermAfter(lines).value)
  {
    if lines != [] {
      FindTermSpec(lines[|lines| - 1], 0);
      TermAfterIsTerm(lines[..|lines| - 1]);
    }
  }

  /** What the scanner emits: a well-formed code, and no term or a normalised one. */
  predicate WellFormed(e: Extracted) {
    IsCode(e.code) && (e.term.Some? ==> IsTerm(e.term.value))
  }

  /** Every raw entry carries a well-formed code and either no term or a normalised one. */
  lemma {:induction false} ScanShape(lines: seq<string>)
    ensures forall k :: 0 <= k < |Scan(lines)| ==> WellFormed(Scan(lines)[k])
  {
    if lines != [] {
      ScanShape(lines[..|lines| - 1]);
      CodesOfShape(lines[|lines| - 1]);
      TermAfterIsTerm(lines);
    }
  }

  // ---------------------------------------------------------------------------
  // Properties of the first-occurrence filter

  /** The index of the first entry with key `key`. */
  function FirstIndex(xs: seq<Extracted>, key: string): (f: nat)
    requires key in KeySet(xs)
    ensures f < |xs| && Key(xs[f]) == key
    ensures forall j :: 0 <= j < f ==> Key(xs[j]) != key
  {
    var init := xs[..|xs| - 1];
    KeySetSnoc(init, xs[|xs| - 1]);
    assert xs == init + [xs[|xs| - 1]];
    if key in KeySet(init) then FirstIndex(init, key) else |xs| - 1
  }

  /**
   * The filter keeps exactly the first entry of each key, in the order of those first
   * entries: every kept entry is the first of its key, later kept entries come from
   * later positions (so the result is a subsequence and no key repeats), and every
   * key of the input survives.
   */
  lemma {:induction false} DedupFirstOccurrences(xs: seq<Extracted>)
    ensures var r := Dedup(xs);
      KeySet(r) == KeySet(xs) &&
      (forall k :: 0 <= k < |r| ==> Key(r[k]) in KeySet(xs) && r[k] == xs[FirstIndex(xs, Key(r[k]))]) &&
      (forall p, q :: 0 <= p < q < |r| ==> FirstIndex(xs, Key(r[p])) < FirstIndex(xs, Key(r[q])))
  {
    DedupKeySet(xs);
    DedupFirsts(xs);
    DedupOrder(xs);
  }

  /** Appending an entry leaves the first index of every earlier key alone. */
  lemma FirstIndexSnoc(init: seq<Extracted>, last: Extracted, key: string)
    requires key in KeySet(init + [last])
    ensures FirstIndex(init + [last], key) == if key in KeySet(init) then FirstIndex(init, key) else |init|
  {
    var xs := init + [last];
    assert xs[..|xs| - 1] == init;
    KeySetSnoc(init, last);
  }

  lemma {:induction false} DedupKeySet(xs: seq<Extracted>)
    ensures KeySet(Dedup(xs)) == KeySet(xs)
  {
    if xs != [] {
      var init, last := xs[..|xs| - 1], xs[|xs| - 1];
      assert xs == init + [last];
      DedupKeySet(init);
      KeySetSnoc(init, last);
      KeySetSnoc(Dedup(init), last);
    }
  }

  /** `e` has a key of `xs`, and is the first entry of `xs` with that key. */
  predicate FirstOf(xs: seq<Extracted>, e: Extracted) {
    Key(e) in KeySet(xs) && e == xs[FirstIndex(xs, Key(e))]
  }

  lemma {:induction false} DedupFirsts(xs: seq<Extracted>)
    ensures forall k :: 0 <= k < |Dedup(xs)| ==> FirstOf(xs, Dedup(xs)[k])
  {
    if xs != [] {
      var init, last := xs[..|xs| - 1], xs[|xs| - 1];
      assert xs == init + [last];
      DedupFirsts(init);
      KeySetSnoc(init, last);
      var d, r := Dedup(init), Dedup(xs);
      var isNew := Key(last) !in KeySet(init);
      assert r == if isNew then d + [last] else d;
      forall k | 0 <= k < |r|
        ensures FirstOf(xs, r[k])
      {
        if k < |d| {
          assert r[k] == d[k] && FirstOf(init, d[k]);
          FirstIndexSnoc(init, last, Key(d[k]));
        } else {
          assert r[k] == last;
          FirstIndexSnoc(init, last, Key(last));
        }
      }
    }
  }

  /** Both keys occur in `xs`, the key of `a` first. */
  predicate KeyBefore(xs: seq<Extracted>, a: Extracted, b: Extracted) {
    Key(a) in KeySet(xs) && Key(b) in KeySet(xs) && FirstIndex(xs, Key(a)) < FirstIndex(xs, Key(b))
  }

  lemma {:induction false} DedupOrder(xs: seq<Extracted>)
    ensures forall p, q :: 0 <= p < q < |Dedup(xs)| ==> KeyBefore(xs, Dedup(xs)[p], Dedup(xs)[q])
  {
    if xs != [] {
      var init, last := xs[..|xs| - 1], xs[|xs| - 1];
      assert xs == init + [last];
      DedupOrder(init);
      DedupFirsts(init);
      KeySetSnoc(init, last);
      var d, r := Dedup(init), Dedup(xs);
      var isNew := Key(last) !in KeySet(init);
      assert r == if isNew then d + [last] else d;
      forall p, q | 0 <= p < q < |r|
        ensures KeyBefore(xs, r[p], r[q])
      {
        assert r[p] == d[p] && FirstOf(init, d[p]);
        FirstIndexSnoc(init, last, Key(d[p]));
        if q < |d| {
          assert r[q] == d[q] && KeyBefore(init, d[p], d[q]);
          FirstIndexSnoc(init, last, Key(d[q]));
        } else {
          assert r[q] == last;
          FirstIndexSnoc(init, last, Key(last));
        }
      }
    }
  }

  /** No two entries of the result share a key. */
  lemma DedupNoDuplicateKeys(xs: seq<Extracted>)
    ensures forall p, q :: 0 <= p < q < |Dedup(xs)| ==> Key(Dedup(xs)[p]) != Key(Dedup(xs)[q])
  {
    DedupFirstOccurrences(xs);
  }

  /** For well-formed entries the string key determines the code and the term. */
  lemma {:induction false} KeyInjective(a: Extracted, b: Extracted)
    requires IsCode(a.code) && IsCode(b.code)
    requires a.term.Some? ==> IsTerm(a.term.value)
    requires b.term.Some? ==> IsTerm(b.term.value)
    requires Key(a) == Key(b)
    ensures a == b
  {
    IsCodeChars(a.code);
    IsCodeChars(b.code);
    KeySplit(a.code, a.term.GetOr(""), b.code, b.term.GetOr(""));
  }

  /** A key splits back into its code and its term when the code holds no `|`. */
  lemma KeySplit(c1: string, t1: string, c2: string, t2: string)
    requires forall k :: 0 <= k < |c1| ==> c1[k] != '|'
    requires forall k :: 0 <= k < |c2| ==> c2[k] != '|'
    requires c1 + "|" + t1 == c2 + "|" + t2
    ensures c1 == c2 && t1 == t2
  {
    var s := c1 + "|" + t1;
    var s2 := c2 + "|" + t2;
    assert s[|c1|] == '|' && s2[|c2|] == '|';
    assert |c1| == |c2|;
    assert c1 == s[..|c1|] && c2 == s2[..|c2|];
    assert t1 == s[|c1| + 1..] && t2 == s2[|c2| + 1..];
  }

  /** The filter drops no well-formed pair: each one is still present afterwards. */
  lemma DedupKeepsEveryPair(xs: seq<Extracted>)
    requires forall k :: 0 <= k < |xs| ==> WellFormed(xs[k])
    ensures forall x :: x in xs ==> x in Dedup(xs)
  {
    var r := Dedup(xs);
    DedupFirstOccurrences(xs);
    forall x | x in xs ensures x in r {
      var i :| 0 <= i < |xs| && xs[i] == x;
      assert Key(x) in KeySet(r);
      var k :| 0 <= k < |r| && Key(r[k]) == Key(x);
      var f := FirstIndex(xs, Key(r[k]));
      KeyInjective(r[k], x);
    }
  }

  /**
   * The scanner's result holds no (code, term) entry twice, every raw entry of the
   * text is in it, and it holds nothing else: the string key cannot conflate two
   * different pairs, since codes contain no `|` and terms are never empty.
   */
  lemma ExtractKeepsEachPairOnce(text: string)
    ensures var raw, r := Scan(SplitLines(text)), Extract(text);
      (forall p, q :: 0 <= p < q < |r| ==> r[p] != r[q]) &&
      (forall x :: x in raw <==> x in r)
  {
    var raw := Scan(SplitLines(text));
    DedupFirstOccurrences(raw);
    ScanShape(SplitLines(text));
    DedupKeepsEveryPair(raw);
  }

  /** Every entry of the scanner's result is well-formed, and no entry repeats. */
  lemma ExtractWellFormed(text: string)
    ensures var r := Extract(text);
      (forall k :: 0 <= k < |r| ==> WellFormed(r[k])) &&
      (forall p, q :: 0 <= p < q < |r| ==> r[p] != r[q])
  {
    var raw := Scan(SplitLines(text));
    ScanShape(SplitLines(text));
    DedupWellFormed(raw);
    assert Extract(text) == Dedup(raw);
  }

  /** The filter keeps well-formed entries well-formed and leaves no entry twice. */
  lemma DedupWellFormed(xs: seq<Extracted>)
    requires forall k :: 0 <= k < |xs| ==> WellFormed(xs[k])
    ensures var r := Dedup(xs);
      (forall k :: 0 <= k < |r| ==> WellFormed(r[k])) &&
      (forall p, q :: 0 <= p < q < |r| ==> r[p] != r[q])
  {
    DedupFirsts(xs);
    DedupOrder(xs);
    var r := Dedup(xs);
    forall k | 0 <= k < |r| ensures WellFormed(r[k]) {
      assert FirstOf(xs, r[k]);
    }
    forall p, q | 0 <= p < q < |r| ensures r[p] != r[q] {
      assert KeyBefore(xs, r[p], r[q]);
    }
  }

  /** Empty text yields no entries. */
  lemma ExtractEmpty()
    ensures Extract("") == []
  {
    assert SplitLines("") == [""];
    assert MatchesFrom("", 0) == [];
    assert Scan([""]) == Scan([]) + Tag(CodesOf(""), TermAfter([""]));
  }

  // ---------------------------------------------------------------------------
  // Examples

  /** `CodeMatchAt` once the department, whitespace and digit runs from `i` are known. */
  lemma CodeMatchAtRuns(s: string, i: nat, d: nat, w: nat, e: nat)
    requires i <= d <= w <= e <= |s| && Boundary(s, i) && d - i >= 2 && w > d
    requires forall k :: i <= k < d ==> IsDeptChar(s[k])
    requires d == |s| || !IsDeptChar(s[d])
    requires forall k :: d <= k < w ==> IsSpace(s[k])
    requires w == |s| || !IsSpace(s[w])
    requires forall k :: w <= k < e ==> IsDigit(s[k])
    requires e == |s| || !IsDigit(s[e])
    ensures CodeMatchAt(s, i) ==
      var four := if e - w >= 4 then NumberWith(s, i, d, w, 4) else None;
      if four.Some? then four else if e - w >= 3 then NumberWith(s, i, d, w, 3) else None
  {
    RunEndExact(s, i, d, IsDeptChar);
    RunEndExact(s, d, w, IsSpace);
    RunEndExact(s, w, e, IsDigit);
  }

  lemma ExampleCodeMatch()
    ensures CodeMatchAt("MATH 521", 0) == Some(CodeMatch("MATH", "521", 8))
  {
    var s := "MATH 521";
    assert s[0..4] == "MATH" && s[5..8] == "521";
    assert Boundary(s, 8);
    assert NumberWith(s, 0, 4, 5, 3) == Some(CodeMatch("MATH", "521", 8));
    CodeMatchAtRuns(s, 0, 4, 5, 8);
  }

  lemma ExampleCodeLine()
    ensures CodesOf("MATH 521") == ["MATH521"]
  {
    ExampleMatches();
    ExampleCodeOf();
  }

  lemma ExampleMatches()
    ensures MatchesFrom("MATH 521", 0) == [CodeMatch("MATH", "521", 8)]
  {
    var s := "MATH 521";
    ExampleCodeMatch();
    assert CodeMatchAt(s, 8).None? by {
      assert RunEnd(s, 8, IsDeptChar) == 8;
    }
  }

  lemma ExampleCodeOf()
    ensures CodeOf(CodeMatch("MATH", "521", 8)) == "MATH521"
  {
    assert "MATH" + "521" == "MATH521";
    UpperKeeps("MATH521");
  }

  /** Without the `i` flag a lower-case department is never a code. */
  lemma ExampleLowerCaseDept()
    ensures CodesOf("Math 521") == []
  {
    var s := "Math 521";
    assert RunEnd(s, 0, IsDeptChar) == 1 by { RunEndExact(s, 0, 1, IsDeptChar); }
    forall i | 1 <= i <= 8 ensures CodeMatchAt(s, i).None? {
      if 1 <= i <= 3 { assert !Boundary(s, i); }
      else if i == 4 { assert RunEnd(s, 4, IsDeptChar) == 4; }
      else if 5 <= i <= 7 { assert !IsDeptChar(s[i]); assert RunEnd(s, i, IsDeptChar) == i; }
    }
    assert MatchesFrom(s, 8) == [];
    assert MatchesFrom(s, 7) == [];
    assert MatchesFrom(s, 6) == [];
    assert MatchesFrom(s, 5) == [];
    assert MatchesFrom(s, 4) == [];
    assert MatchesFrom(s, 3) == [];
    assert MatchesFrom(s, 2) == [];
    assert MatchesFrom(s, 1) == [];
  }

  /** `SeasonMatchAt` once the whitespace run after the season word is known. */
  lemma SeasonMatchAtRun(s: string, i: nat, w: string, j: nat)
    requires WordAtCI(s, i, w) && |w| >= 1
    requires IsUpper(w[0]) && forall k :: 1 <= k < |w| ==> IsLower(w[k])
    requires i + |w| < j <= |s| && forall k :: i + |w| <= k < j ==> IsSpace(s[k])
    requires j == |s| || !IsSpace(s[j])
    requires YearAt(s, j)
    ensures SeasonMatchAt(s, i, w) == Some(s[j..j + 4] + "-" + w)
  {
    RunEndExact(s, i + |w|, j, IsSpace);
    CasedWord(s, i, w);
  }

  lemma ExampleTermLine()
    ensures TermOf("Fall 2025") == Some("2025-Fall")
  {
    var s := "Fall 2025";
    assert Seasons[0] == "Fall";
    ExampleFallMatch();
    assert TermMatchAt(s, 0) == Some("2025-Fall");
  }

  lemma ExampleFallMatch()
    ensures SeasonMatchAt("Fall 2025", 0, "Fall") == Some("2025-Fall")
  {
    var s := "Fall 2025";
    assert WordAtCI(s, 0, "Fall");
    SeasonMatchAtRun(s, 0, "Fall", 5);
    assert s[5..9] == "2025";
    assert "2025" + "-" + "Fall" == "2025-Fall";
  }

  /** "Fall 2025" has no code: the only upper-case run is one letter long. */
  lemma ExampleTermLineHasNoCode()
    ensures CodesOf("Fall 2025") == []
  {
    var s := "Fall 2025";
    forall i | 0 <= i <= 9 ensures CodeMatchAt(s, i).None? {
      if i == 0 { assert RunEnd(s, 0, IsDeptChar) == 1 by { RunEndExact(s, 0, 1, IsDeptChar); } }
      else if i < 4 || 5 < i < 9 { assert !Boundary(s, i); }
      else { assert RunEnd(s, i, IsDeptChar) == i; }
    }
    assert MatchesFrom(s, 9) == [];
    assert MatchesFrom(s, 8) == [];
    assert MatchesFrom(s, 7) == [];
    assert MatchesFrom(s, 6) == [];
    assert MatchesFrom(s, 5) == [];
    assert MatchesFrom(s, 4) == [];
    assert MatchesFrom(s, 3) == [];
    assert MatchesFrom(s, 2) == [];
    assert MatchesFrom(s, 1) == [];
  }

  /** "MATH 521" names no season. */
  lemma ExampleCodeLineHasNoTerm()
    ensures TermOf("MATH 521") == None
  {
    var s := "MATH 521";
    forall i, k | 0 <= i <= 8 && 0 <= k < 4 ensures SeasonMatchAt(s, i, Seasons[k]).None? {
      var w := Seasons[k];
      assert LowerChar(w[0]) in {'f', 'w', 's'};
      if i < |s| {
        assert LowerChar(s[i]) in {'m', 'a', 't', 'h', ' ', '5', '2', '1'};
      }
    }
    forall i | 0 <= i <= 8 ensures TermMatchAt(s, i).None? {
      assert TermMatchFrom(s, i, 3).None?;
      assert TermMatchFrom(s, i, 2).None?;
      assert TermMatchFrom(s, i, 1).None?;
    }
    FindTermSpec(s, 0);
  }

  /** A term line followed by a line without one: the term carries to the second line. */
  lemma TermCarried(first: string, second: string, term: string)
    requires TermOf(first) == Some(term) && TermOf(second) == None
    ensures TermAfter([first, second]) == Some(term)
    ensures TermAfter([second]) == None
  {
    assert [first, second][..1] == [first];
    assert [first][..0] == [] && [second][..0] == [];
  }

  lemma ExampleTermCarried()
    ensures TermAfter(["Fall 2025", "MATH 521"]) == Some("2025-Fall")
    ensures TermAfter(["MATH 521"]) == None
  {
    ExampleTermLine();
    ExampleCodeLineHasNoTerm();
    TermCarried("Fall 2025", "MATH 521", "2025-Fall");
  }

  /** A single line is scanned with the term it announces itself. */
  lemma ScanOneLine(line: string, code: string, term: Option<string>)
    requires CodesOf(line) == [code] && TermOf(line) == term
    ensures Scan([line]) == [Extracted(code, term)]
  {
    assert [line][..0] == [];
    assert TermAfter([line]) == term;
  }

  /** A term line without codes, then a line with one code and no term: the code gets the term. */
  lemma ScanPair(first: string, second: string, code: string, term: string)
    requires CodesOf(first) == [] && TermOf(first) == Some(term)
    requires CodesOf(second) == [code] && TermOf(second) == None
    ensures Scan([first, second]) == [Extracted(code, Some(term))]
  {
    TermCarried(first, second, term);
    assert [first, second][..1] == [first];
    assert [first][..0] == [];
    assert Scan([first]) == [];
  }

  /**
   * A term line followed by a code line yields the code with
   * that term, and the code line alone yields the code with no term.
   */
  lemma ExampleCarryForward()
    ensures Scan(["Fall 2025", "MATH 521"]) == [Extracted("MATH521", Some("2025-Fall"))]
    ensures Scan(["MATH 521"]) == [Extracted("MATH521", None)]
  {
    ExampleTermLine();
    ExampleTermLineHasNoCode();
    ExampleCodeLine();
    ExampleCodeLineHasNoTerm();
    ScanPair("Fall 2025", "MATH 521", "MATH521", "2025-Fall");
    ScanOneLine("MATH 521", "MATH521", None);
  }
}
