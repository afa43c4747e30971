/**
 * `main` of scripts/har-extract-enroll.ts: read a HAR capture, keep the entries of the
 * enroll host whose response carries JSON, and either apply each payload's schedule
 * items to the store (`--apply`) or write each payload to a file (`--out`). The files
 * are returned as (name, content) pairs instead of being written.
 */
module HarExtract {
  import opened Common
  import opened Text
  import opened Js
  import opened Store
  import opened EnrollParser
  import opened Har
  import opened ScheduleUpsert

  /** The command line: `--har`, `--out`, `--term` (each `""` when absent) and `--apply`. */
  datatype Args = Args(har: string, out: string, term: string, apply: bool)

  datatype Failure =
    | MissingHar   // "Provide --har <path>"
    | MissingTerm  // "Provide --term when using --apply"
    | Crashed      // an exception ended the script

  /** What the script produced: its count and the files it wrote. */
  datatype Report = Report(count: nat, files: seq<(string, string)>)

  /** The state of the entry loop. */
  datatype Progress = Progress(tables: OfferingTables, count: nat, files: seq<(string, string)>, thrown: bool)

  // ---------------------------------------------------------------------------
  // File names

  predicate NotAlnum(c: char) { !IsAlnum(c) }

  /** `url.replace(/[^a-zA-Z0-9]+/g, '_')`: each run of other characters becomes one `_`. */
  function SafeName(url: string): (r: string)
    ensures forall k :: 0 <= k < |r| ==> IsAlnum(r[k]) || r[k] == '_'
    ensures url != [] && IsAlnum(url[0]) ==> r != [] && r[0] == url[0]
    ensures url != [] && !IsAlnum(url[0]) ==> r != [] && r[0] == '_'
    ensures url == [] ==> r == []
    decreases |url|
  {
    if url == [] then []
    else if IsAlnum(url[0]) then [url[0]] + SafeName(url[1..])
    else "_" + SafeName(url[RunEnd(url, 0, NotAlnum)..])
  }

  /** The letters and digits of a string, in order. */
  function Alnums(s: string): string {
    if s == [] then [] else (if IsAlnum(s[0]) then [s[0]] else []) + Alnums(s[1..])
  }

  lemma {:induction false} AlnumsSkip(s: string, j: nat)
    requires j <= |s| && forall k :: 0 <= k < j ==> !IsAlnum(s[k])
    ensures Alnums(s) == Alnums(s[j..])
  {
    if j > 0 {
      assert s[1..][j - 1..] == s[j..];
      AlnumsSkip(s[1..], j - 1);
    }
  }

  /** The replacement never produces two underscores in a row, and keeps every letter and digit in order. */
  lemma {:induction false} SafeNameSpec(url: string)
    ensures forall k :: 0 <= k < |SafeName(url)| - 1 ==> !(SafeName(url)[k] == '_' && SafeName(url)[k + 1] == '_')
    ensures Alnums(SafeName(url)) == Alnums(url)
    decreases |url|
  {
    if url != [] {
      if IsAlnum(url[0]) {
        SafeNameSpec(url[1..]);
        var r := SafeName(url);
        assert r[1..] == SafeName(url[1..]);
      } else {
        var j := RunEnd(url, 0, NotAlnum);
        SafeNameSpec(url[j..]);
        AlnumsSkip(url, j);
        var r := SafeName(url);
        var rest := SafeName(url[j..]);
        assert r == "_" + rest && r[1..] == rest;
        assert rest != [] ==> IsAlnum(rest[0]);
        assert Alnums("_" + rest) == Alnums(rest) by { assert ("_" + rest)[1..] == rest; }
      }
    }
  }

  /** Every character other than a letter or digit replaced by `_`, one for one. */
  function Underscored(s: string): (r: string)
    ensures |r| == |s|
    ensures forall k :: 0 <= k < |s| ==> r[k] == (if IsAlnum(s[k]) then s[k] else '_')
  {
    seq(|s|, k requires 0 <= k < |s| => if IsAlnum(s[k]) then s[k] else '_')
  }

  /** Each run of underscores shortened to one underscore. */
  function Squeeze(s: string): string
    decreases |s|
  {
    if |s| < 2 then s
    else if s[0] == '_' && s[1] == '_' then Squeeze(s[1..])
    else [s[0]] + Squeeze(s[1..])
  }

  /**
   * The replacement against an independent reference: replacing every other character
   * by `_` and then squeezing each run of underscores to one gives the same name, so
   * each maximal run of characters other than letters and digits becomes exactly one `_`.
   */
  lemma {:induction false} SafeNameSqueezes(url: string)
    ensures SafeName(url) == Squeeze(Underscored(url))
    decreases |url|
  {
    if url != [] {
      var u := Underscored(url);
      if IsAlnum(url[0]) {
        SafeNameSqueezes(url[1..]);
        assert u == [url[0]] + Underscored(url[1..]);
        SqueezeCons(url[0], Underscored(url[1..]));
      } else {
        var j := RunEnd(url, 0, NotAlnum);
        SafeNameSqueezes(url[j..]);
        SqueezeSkipRun(url, j);
      }
    }
  }

  /** Helper for SafeNameSqueezes: a maximal leading run of other characters squeezes to one `_`. */
  lemma SqueezeSkipRun(url: string, j: nat)
    requires 1 <= j <= |url| && (forall k :: 0 <= k < j ==> !IsAlnum(url[k])) && (j == |url| || IsAlnum(url[j]))
    ensures Squeeze(Underscored(url)) == "_" + Squeeze(Underscored(url[j..]))
  {
    var rest := Underscored(url[j..]);
    assert Underscored(url) == seq(j, _ => '_') + rest;
    assert rest != [] ==> rest[0] == url[j];
    SqueezeRun(j, rest);
  }

  /** A letter or digit in front passes through the squeeze. */
  lemma SqueezeCons(c: char, t: string)
    requires c != '_'
    ensures Squeeze([c] + t) == [c] + Squeeze(t)
  {
    var s := [c] + t;
    if |s| >= 2 {
      assert s[1..] == t;
    }
  }

  /** A run of `n` underscores before text that does not start with one squeezes to one. */
  lemma {:induction false} SqueezeRun(n: nat, t: string)
    requires n >= 1 && (t == [] || t[0] != '_')
    ensures Squeeze(seq(n, _ => '_') + t) == "_" + Squeeze(t)
  {
    var s := seq(n, _ => '_') + t;
    if n == 1 {
      if |s| >= 2 {
        assert s[1..] == t;
      }
    } else {
      assert s[1..] == seq(n - 1, _ => '_') + t;
      SqueezeRun(n - 1, t);
    }
  }

  /** `` `${String(i).padStart(4, '0')}_${safeName.slice(0, 100)}.json` `` */
  function FileName(i: nat, url: string): string {
    PadStart(NatToString(i), 4, '0') + "_" + Take(SafeName(url), 100) + ".json"
  }

  lemma {:induction false} NatToStringShort(i: nat)
    ensures i < 10 ==> |NatToString(i)| == 1
    ensures i < 100 ==> |NatToString(i)| <= 2
    ensures i < 1000 ==> |NatToString(i)| <= 3
    ensures i < 10000 ==> |NatToString(i)| <= 4
  {
    if i >= 10 {
      NatToStringShort(i / 10);
    }
  }

  /**
   * For an index below 10000 the name is the index padded to four digits, `_`, the
   * first 100 characters of the safe name (letters, digits and underscores), and `.json`.
   */
  lemma FileNameShape(i: nat, url: string)
    requires i < 10000
    ensures var n := FileName(i, url);
      10 <= |n| <= 110 && n[..4] == PadStart(NatToString(i), 4, '0') &&
      (forall k :: 0 <= k < 4 ==> IsDigit(n[k])) && n[4] == '_' &&
      n[5..|n| - 5] == Take(SafeName(url), 100) &&
      (forall k :: 5 <= k < |n| - 5 ==> IsAlnum(n[k]) || n[k] == '_') &&
      EndsWith(n, ".json")
  {
    PaddedIndex(i);
    var p := PadStart(NatToString(i), 4, '0');
    var t := Take(SafeName(url), 100);
    assert forall k :: 0 <= k < |t| ==> IsAlnum(t[k]) || t[k] == '_' by {
      forall k | 0 <= k < |t| ensures IsAlnum(t[k]) || t[k] == '_' {
        assert t[k] == SafeName(url)[k];
      }
    }
    JoinedName(p, t);
  }

  /** An index below 10000, padded to four places, is four digits. */
  lemma PaddedIndex(i: nat)
    requires i < 10000
    ensures var p := PadStart(NatToString(i), 4, '0');
      |p| == 4 && forall k :: 0 <= k < 4 ==> IsDigit(p[k])
  {
    NatToStringShort(i);
    var p := PadStart(NatToString(i), 4, '0');
    assert |p| == 4;
    forall k | 0 <= k < 4
      ensures IsDigit(p[k])
    {
      if k < 4 - |NatToString(i)| {
        assert p[k] == '0';
      } else {
        assert p[k] == NatToString(i)[k - (4 - |NatToString(i)|)];
      }
    }
  }

  /** Four digits, `_`, a safe stem of at most 100 characters and `.json`. */
  lemma JoinedName(p: string, t: string)
    requires |p| == 4 && forall k :: 0 <= k < 4 ==> IsDigit(p[k])
    requires |t| <= 100 && forall k :: 0 <= k < |t| ==> IsAlnum(t[k]) || t[k] == '_'
    ensures var n := p + "_" + t + ".json";
      |n| == |t| + 10 && n[..4] == p && n[5..|n| - 5] == t &&
      (forall k :: 0 <= k < 4 ==> IsDigit(n[k])) && n[4] == '_' &&
      (forall k :: 5 <= k < |n| - 5 ==> IsAlnum(n[k]) || n[k] == '_') &&
      EndsWith(n, ".json")
  {
    var n := p + "_" + t + ".json";
    assert forall k :: 0 <= k < 4 ==> n[k] == p[k];
    assert forall k :: 5 <= k < |n| - 5 ==> n[k] == t[k - 5];
    assert n[|n| - 5..] == ".json";
    assert n[..4] == p;
    assert n[5..|n| - 5] == t;
  }

  // ---------------------------------------------------------------------------
  // The entry filter

  /** `(c.mimeType || '').toLowerCase()`: converting a non-string type throws. */
  function MimeOf(c: Value): Result<string, Exception> {
    var m := Or(GetOpt(c, "mimeType"), Str(""));
    if m.Str? then Ok(Lower(m.s)) else Err(TypeError)
  }

  /** An empty type passes; any other must mention json, javascript or text. */
  predicate MimeAccepted(mime: string) {
    mime == "" || Contains(mime, "json") || Contains(mime, "javascript") || Contains(mime, "text")
  }

  /** One entry: its URL and payload when it passes the filters, or the exception it throws. */
  function ExtractEntry(e: Value, decode: string -> string): Result<Option<(Value, string)>, Exception> {
    var url :- EntryUrl(e);
    var fromEnroll :- FromEnrollHost(url);
    var c := ContentOf(e);
    if !fromEnroll || NoText(c) then Ok(None)
    else
      var mime :- MimeOf(c);
      if !MimeAccepted(mime) then Ok(None)
      else
        var body := Body(c, decode);
        if !body.Str? then Err(TypeError)  // `text.trim()`
        else if LooksLikeJson(body.s) then Ok(Some((url, body.s)))
        else Ok(None)
  }

  /** The tests an entry's response must pass, given that its URL names the enroll host. */
  predicate PassesContentTests(c: Value, decode: string -> string) {
    !NoText(c) && MimeOf(c).Ok? && MimeAccepted(MimeOf(c).value) &&
    Body(c, decode).Str? && LooksLikeJson(Body(c, decode).s)
  }

  /** An entry yields a payload only if its URL names the enroll host and its response passes every test. */
  lemma ExtractEntrySound(e: Value, decode: string -> string)
    requires ExtractEntry(e, decode).Ok? && ExtractEntry(e, decode).value.Some?
    ensures var found := ExtractEntry(e, decode).value.value;
      EntryUrl(e) == Ok(found.0) && FromEnrollHost(found.0) == Ok(true) &&
      PassesContentTests(ContentOf(e), decode) && found.1 == Body(ContentOf(e), decode).s
  {
  }

  /** Conversely, an entry whose string URL names the enroll host and whose response passes every test yields its body. */
  lemma ExtractEntryComplete(e: Value, decode: string -> string, url: string)
    requires EntryUrl(e) == Ok(Str(url)) && MatchesEnrollHost(url) && PassesContentTests(ContentOf(e), decode)
    ensures ExtractEntry(e, decode) == Ok(Some((Str(url), Body(ContentOf(e), decode).s)))
  {
    assert FromEnrollHost(Str(url)) == Ok(true);
  }

  // ---------------------------------------------------------------------------
  // The loop

  /** What the loop does with a payload `text` found at `entries[i]` under `url`. */
  function UsePayload(courses: map<string, Course>, args: Args, parse: string -> Option<Value>,
                      p: Progress, i: nat, url: Value, text: string): Progress
  {
    if args.apply then
      var items := EnrollItems(parse(text));
      if |items| == 0 then p
      else
        var run := Schedule(courses, args.term, Start(p.tables), items);
        if run.thrown then p.(tables := run.tables, thrown := true)
        else p.(tables := run.tables, count := p.count + |items|)
    else if args.out != "" then
      if !url.Str? then p.(thrown := true)  // `url.replace(...)`
      else p.(files := p.files + [(FileName(i, url.s), text)], count := p.count + 1)
    else p
  }

  /** One turn of the loop over `entries[i]`. */
  function Step(courses: map<string, Course>, args: Args, parse: string -> Option<Value>, decode: string -> string,
                p: Progress, i: nat, e: Value): Progress
  {
    if p.thrown then p
    else
      match ExtractEntry(e, decode)
      case Err(_) => p.(thrown := true)
      case Ok(None) => p
      case Ok(Some(found)) => UsePayload(courses, args, parse, p, i, found.0, found.1)
  }

  function ExtractAll(courses: map<string, Course>, args: Args, parse: string -> Option<Value>, decode: string -> string,
                      p: Progress, entries: seq<Value>): Progress
  {
    if entries == [] then p
    else Step(courses, args, parse, decode, ExtractAll(courses, args, parse, decode, p, entries[..|entries| - 1]),
              |entries| - 1, entries[|entries| - 1])
  }

  /** `har.log?.entries || []`, read by index up to `entries.length`; only arrays and strings have a length here. */
  function IndexedEntries(har: Value): Result<seq<Value>, Exception> {
    if Nullish(har) then Err(TypeError)
    else
      var v := Or(GetOpt(GetOpt(har, "log"), "entries"), Arr([]));
      match v
      case Arr(elems) => Ok(elems)
      case Str(s) => Ok(seq(|s|, k requires 0 <= k < |s| => Str([s[k]])))
      case _ => Ok([])
  }

  /** What the script does: its result, and the store's tables afterwards. */
  function ExtractOutcome(courses: map<string, Course>, t: OfferingTables, args: Args, raw: string,
                          parse: string -> Option<Value>, decode: string -> string): (Result<Report, Failure>, OfferingTables)
  {
    if args.har == "" then (Err(MissingHar), t)
    else if args.apply && args.term == "" then (Err(MissingTerm), t)
    else
      match parse(raw)
      case None => (Err(Crashed), t)
      case Some(har) =>
        match IndexedEntries(har)
        case Err(_) => (Err(Crashed), t)
        case Ok(entries) =>
          var p := ExtractAll(courses, args, parse, decode, Progress(t, 0, [], false), entries);
          (if p.thrown then Err(Crashed) else Ok(Report(p.count, p.files)), p.tables)
  }

  lemma ExtractAllStep(courses: map<string, Course>, args: Args, parse: string -> Option<Value>, decode: string -> string,
                       p: Progress, entries: seq<Value>, k: nat)
    requires k < |entries|
    ensures ExtractAll(courses, args, parse, decode, p, entries[..k + 1]) ==
      Step(courses, args, parse, decode, ExtractAll(courses, args, parse, decode, p, entries[..k]), k, entries[k])
  {
    assert entries[..k + 1][..k] == entries[..k];
  }

  lemma {:induction false} ExtractAllThrownSticks(courses: map<string, Course>, args: Args, parse: string -> Option<Value>,
                                                  decode: string -> string, p: Progress, entries: seq<Value>, n: nat)
    requires n <= |entries| && ExtractAll(courses, args, parse, decode, p, entries[..n]).thrown
    ensures ExtractAll(courses, args, parse, decode, p, entries) == ExtractAll(courses, args, parse, decode, p, entries[..n])
    decreases |entries| - n
  {
    if n < |entries| {
      ExtractAllStep(courses, args, parse, decode, p, entries, n);
      ExtractAllThrownSticks(courses, args, parse, decode, p, entries, n + 1);
    } else {
      assert entries[..n] == entries;
    }
  }

  /** The payloads the filters let through, each with its index and URL. */
  function Payloads(entries: seq<Value>, decode: string -> string): seq<(nat, Value, string)> {
    if entries == [] then []
    else
      var last := |entries| - 1;
      Payloads(entries[..last], decode) +
        match ExtractEntry(entries[last], decode)
        case Ok(Some(found)) => [(last, found.0, found.1)]
        case _ => []
  }

  /** The number of schedule items in the payloads. */
  function ItemTotal(parse: string -> Option<Value>, ps: seq<(nat, Value, string)>): nat {
    if ps == [] then 0 else ItemTotal(parse, ps[..|ps| - 1]) + |EnrollItems(parse(ps[|ps| - 1].2))|
  }

  function UrlText(url: Value): string {
    if url.Str? then url.s else ""
  }

  /** The files written for the payloads. */
  function FilesOf(ps: seq<(nat, Value, string)>): seq<(string, string)> {
    if ps == [] then [] else FilesOf(ps[..|ps| - 1]) + [(FileName(ps[|ps| - 1].0, UrlText(ps[|ps| - 1].1)), ps[|ps| - 1].2)]
  }

  /** The payload `entries[i]` contributes, if any. */
  function PayloadAt(i: nat, e: Value, decode: string -> string): seq<(nat, Value, string)> {
    match ExtractEntry(e, decode)
    case Ok(Some(found)) => [(i, found.0, found.1)]
    case _ => []
  }

  /**
   * How the state `q` reached from `p` while meeting the payloads `ps` relates to them.
   * Without `--apply` the store is left alone. Unless the script crashed, `--apply` counts
   * the schedule items of every payload; otherwise `--out` writes one file per payload,
   * named after its index and URL, and counts the files; with neither flag the count
   * stays as it was and nothing is written.
   */
  predicate CountsFor(args: Args, parse: string -> Option<Value>, p: Progress, q: Progress, ps: seq<(nat, Value, string)>) {
    (!args.apply ==> q.tables == p.tables) &&
    (!q.thrown && args.apply ==> q.count == p.count + ItemTotal(parse, ps) && q.files == p.files) &&
    (!q.thrown && !args.apply && args.out != "" ==> q.count == p.count + |ps| && q.files == p.files + FilesOf(ps)) &&
    (!args.apply && args.out == "" ==> q.count == p.count && q.files == p.files)
  }

  lemma CountsForTrans(args: Args, parse: string -> Option<Value>, p: Progress, q0: Progress, q: Progress,
                       ps0: seq<(nat, Value, string)>, ps1: seq<(nat, Value, string)>)
    requires CountsFor(args, parse, p, q0, ps0) && CountsFor(args, parse, q0, q, ps1)
    requires !q.thrown ==> !q0.thrown
    requires ItemTotal(parse, ps0 + ps1) == ItemTotal(parse, ps0) + ItemTotal(parse, ps1)
    requires FilesOf(ps0 + ps1) == FilesOf(ps0) + FilesOf(ps1)
    ensures CountsFor(args, parse, p, q, ps0 + ps1)
  {
    if !q.thrown && !args.apply && args.out != "" {
      var a, b, c := p.files, FilesOf(ps0), FilesOf(ps1);
      assert q.files == a + b + c;
      ConcatAssoc(a, b, c);
    }
  }

  lemma ConcatAssoc<T>(a: seq<T>, b: seq<T>, c: seq<T>)
    ensures a + b + c == a + (b + c)
  {
  }

  /** `CountsFor` for one payload. */
  lemma UsePayloadCounts(courses: map<string, Course>, args: Args, parse: string -> Option<Value>,
                         p: Progress, i: nat, url: Value, text: string)
    requires !p.thrown
    ensures CountsFor(args, parse, p, UsePayload(courses, args, parse, p, i, url, text), [(i, url, text)])
  {
    var ps := [(i, url, text)];
    assert ps[..0] == [];
    if args.apply {
      assert ItemTotal(parse, ps) == |EnrollItems(parse(text))|;
    } else if args.out != "" {
      assert FilesOf(ps) == [(FileName(i, UrlText(url)), text)];
    }
  }

  /** `CountsFor` for one turn of the loop. */
  lemma StepCounts(courses: map<string, Course>, args: Args, parse: string -> Option<Value>,
                   decode: string -> string, p: Progress, i: nat, e: Value)
    requires !p.thrown
    ensures CountsFor(args, parse, p, Step(courses, args, parse, decode, p, i, e), PayloadAt(i, e, decode))
  {
    match ExtractEntry(e, decode)
    case Ok(Some(found)) => UsePayloadCounts(courses, args, parse, p, i, found.0, found.1);
    case _ =>
  }

  lemma PayloadsSnoc(entries: seq<Value>, decode: string -> string)
    requires entries != []
    ensures Payloads(entries, decode) ==
      Payloads(entries[..|entries| - 1], decode) + PayloadAt(|entries| - 1, entries[|entries| - 1], decode)
  {
  }

  lemma TotalsAppend(parse: string -> Option<Value>, ps: seq<(nat, Value, string)>, extra: seq<(nat, Value, string)>)
    requires |extra| <= 1
    ensures ItemTotal(parse, ps + extra) == ItemTotal(parse, ps) + ItemTotal(parse, extra)
    ensures FilesOf(ps + extra) == FilesOf(ps) + FilesOf(extra)
  {
    if |extra| == 1 {
      assert (ps + extra)[..|ps + extra| - 1] == ps;
      assert extra[..0] == [];
    } else {
      assert ps + extra == ps;
    }
  }

  /** What the count means: `CountsFor` holds of the whole loop and all its payloads. */
  lemma {:induction false} ExtractCounts(courses: map<string, Course>, args: Args, parse: string -> Option<Value>,
                                         decode: string -> string, p: Progress, entries: seq<Value>)
    requires !p.thrown
    ensures var q := ExtractAll(courses, args, parse, decode, p, entries);
      var ps := Payloads(entries, decode);
      CountsFor(args, parse, p, q, ps)
  {
    if entries != [] {
      var last := |entries| - 1;
      var init := entries[..last];
      ExtractCounts(courses, args, parse, decode, p, init);
      var q0 := ExtractAll(courses, args, parse, decode, p, init);
      PayloadsSnoc(entries, decode);
      TotalsAppend(parse, Payloads(init, decode), PayloadAt(last, entries[last], decode));
      if !q0.thrown {
        StepCounts(courses, args, parse, decode, q0, last, entries[last]);
        CountsForTrans(args, parse, p, q0, ExtractAll(courses, args, parse, decode, p, entries),
                       Payloads(init, decode), PayloadAt(last, entries[last], decode));
      }
    }
  }

  /** The body of the loop once an entry has passed the filters, on the store. */
  method UsePayloadOn(db: Database, args: Args, parse: string -> Option<Value>,
                      p: Progress, i: nat, url: Value, text: string) returns (q: Progress)
    requires !p.thrown && p.tables == db.Tables()
    modifies db`offerings, db`instructors, db`offeringInstructors, db`courseInstructors
    ensures q == UsePayload(db.courses, args, parse, p, i, url, text) && q.tables == db.Tables()
  {
    if args.apply {
      var items := ParseEnrollJSON(parse, text);
      if |items| > 0 {
        var counts := UpsertSchedule(db, args.term, items);
        if counts.None? {
          return p.(tables := db.Tables(), thrown := true);
        }
        return p.(tables := db.Tables(), count := p.count + |items|);
      }
      return p;
    } else if args.out != "" {
      if !url.Str? {
        return p.(thrown := true);
      }
      return p.(files := p.files + [(FileName(i, url.s), text)], count := p.count + 1);
    }
    return p;
  }

  /** One turn of the loop, on the store. */
  method ApplyEntry(db: Database, args: Args, parse: string -> Option<Value>, decode: string -> string,
                    p: Progress, i: nat, e: Value) returns (q: Progress)
    requires !p.thrown && p.tables == db.Tables()
    modifies db`offerings, db`instructors, db`offeringInstructors, db`courseInstructors
    ensures q == Step(db.courses, args, parse, decode, p, i, e) && q.tables == db.Tables()
  {
    var found := ExtractEntry(e, decode);
    if found.Err? {
      return p.(thrown := true);
    }
    if found.value.None? {
      return p;
    }
    q := UsePayloadOn(db, args, parse, p, i, found.value.value.0, found.value.value.1);
  }

  /** `main`, from the arguments and the HAR file's content. */
  method RunExtract(db: Database, args: Args, raw: string, parse: string -> Option<Value>, decode: string -> string)
    returns (r: Result<Report, Failure>)
    modifies db`offerings, db`instructors, db`offeringInstructors, db`courseInstructors
    ensures (r, db.Tables()) == ExtractOutcome(db.courses, old(db.Tables()), args, raw, parse, decode)
  {
    if args.har == "" {
      return Err(MissingHar);
    }
    if args.apply && args.term == "" {
      return Err(MissingTerm);
    }
    var har := parse(raw);
    if har.None? {
      return Err(Crashed);
    }
    var entries := IndexedEntries(har.value);
    if entries.Err? {
      return Err(Crashed);
    }
    var es := entries.value;
    var p := Progress(db.Tables(), 0, [], false);
    ghost var start := p;
    for i := 0 to |es|
      invariant !p.thrown && p.tables == db.Tables()
      invariant ExtractAll(db.courses, args, parse, decode, start, es[..i]) == p
    {
      ExtractAllStep(db.courses, args, parse, decode, start, es, i);
      p := ApplyEntry(db, args, parse, decode, p, i, es[i]);
      if p.thrown {
        ExtractAllThrownSticks(db.courses, args, parse, decode, start, es, i + 1);
        return Err(Crashed);
      }
    }
    assert es[..|es|] == es;
    r := Ok(Report(p.count, p.files));
  }

  /**
   * A run that finishes: with `--apply` its count is the number of schedule items in the
   * payloads and no file is written; with only `--out` it writes one file per payload and
   * leaves the store alone; with neither it reports 0.
   */
  lemma ExtractReport(courses: map<string, Course>, t: OfferingTables, args: Args, raw: string,
                      parse: string -> Option<Value>, decode: string -> string, har: Value, entries: seq<Value>)
    requires args.har != "" && !(args.apply && args.term == "")
    requires parse(raw) == Some(har) && IndexedEntries(har) == Ok(entries)
    requires ExtractOutcome(courses, t, args, raw, parse, decode).0.Ok?
    ensures var (r, t') := ExtractOutcome(courses, t, args, raw, parse, decode);
      var ps := Payloads(entries, decode);
      (args.apply ==> r.value == Report(ItemTotal(parse, ps), [])) &&
      (!args.apply && args.out != "" ==> r.value == Report(|ps|, FilesOf(ps)) && t' == t) &&
      (!args.apply && args.out == "" ==> r.value == Report(0, []) && t' == t)
  {
    var p := Progress(t, 0, [], false);
    var q := ExtractAll(courses, args, parse, decode, p, entries);
    assert ExtractOutcome(courses, t, args, raw, parse, decode) ==
      (if q.thrown then Err(Crashed) else Ok(Report(q.count, q.files)), q.tables);
    ExtractCounts(courses, args, parse, decode, p, entries);
    assert [] + FilesOf(Payloads(entries, decode)) == FilesOf(Payloads(entries, decode));
  }

  /** Both argument errors are reported before the capture is read, and leave the store alone. */
  lemma ArgumentsCheckedFirst(courses: map<string, Course>, t: OfferingTables, args: Args, raw: string,
                              parse: string -> Option<Value>, decode: string -> string)
    requires args.har == "" || (args.apply && args.term == "")
    ensures ExtractOutcome(courses, t, args, raw, parse, decode) ==
      (Err(if args.har == "" then MissingHar else MissingTerm), t)
  {
  }
}
