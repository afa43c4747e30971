/**
 * `POST` of app/api/admin/import/enroll/route.ts: an administrator uploads either a
 * HAR capture or one raw JSON payload of the enroll site together with a term. The
 * JSON payloads are parsed into schedule items, items with the same (code, section)
 * key are merged, and the merged list goes to `upsertSchedule`.
 */
module EnrollRoute {
  import opened Common
  import opened Text
  import opened Js
  import opened Store
  import opened EnrollParser
  import opened Har
  import opened ScheduleUpsert

  /** The uploaded file: its name, its MIME type and its content decoded as UTF-8. */
  datatype File = File(name: string, mime: string, text: string)

  /** What `form.get('file')` returns: nothing, a plain string field, or an uploaded file. */
  datatype FileField = NoField | TextField(s: string) | FileUpload(f: File)

  /** The multipart form: `String(form.get('term') || '')` and `form.get('file')`. */
  datatype Form = Form(term: string, file: FileField)

  /** `!file`: a missing field or an empty string is falsy; an uploaded file object never is. */
  predicate MissingFileField(field: FileField) {
    field.NoField? || field == TextField("")
  }

  datatype Response =
    | Forbidden                // 403: no session, or not an administrator
    | NotMultipart             // 400: the body is not form data
    | MissingTerm              // 400
    | MissingFile              // 400
    | UploadUnreadable         // 400: "Failed to parse upload: ..."
    | Imported(term: string, offerings: nat, instructorsLinked: nat)
    | ServerError              // 500: an exception outside the upload's try block

  function Status(r: Response): (code: nat)
    ensures code == 403 <==> r.Forbidden?
    ensures code == 400 <==> r.NotMultipart? || r.MissingTerm? || r.MissingFile? || r.UploadUnreadable?
    ensures code == 200 <==> r.Imported?
    ensures code == 500 <==> r.ServerError?
  {
    match r
    case Forbidden => 403
    case Imported(_, _, _) => 200
    case ServerError => 500
    case _ => 400
  }

  // ---------------------------------------------------------------------------
  // Reading the upload

  /** `name.toLowerCase().endsWith('.har') || mime.includes('har')` */
  predicate IsHarUpload(f: File) {
    EndsWith(Lower(f.name), ".har") || Contains(f.mime, "har")
  }

  /** The body one HAR entry contributes, if any, or the exception reading it throws. */
  function EntryBody(e: Value, decode: string -> string): (r: Result<Option<string>, Exception>)
    ensures r.Ok? && r.value.Some? ==> LooksLikeJson(r.value.value)
  {
    var url :- EntryUrl(e);
    var fromEnroll :- FromEnrollHost(url);
    var c := ContentOf(e);
    if !fromEnroll || NoText(c) then Ok(None)
    else
      var body := Body(c, decode);
      if !body.Str? then Err(TypeError)  // `body.trim()`
      else if LooksLikeJson(body.s) then Ok(Some(body.s))
      else Ok(None)
  }

  /** The collected bodies, in entry order. */
  function Bodies(entries: seq<Value>, decode: string -> string): Result<seq<string>, Exception> {
    if entries == [] then Ok([])
    else
      var init :- Bodies(entries[..|entries| - 1], decode);
      var body :- EntryBody(entries[|entries| - 1], decode);
      match body
      case Some(b) => Ok(init + [b])
      case None => Ok(init)
  }

  /** `har.log?.entries || []` iterated by `for ... of`; `har.log` throws on `null`. */
  function HarEntries(har: Value): Result<seq<Value>, Exception> {
    if Nullish(har) then Err(TypeError)
    else Iterate(Or(GetOpt(GetOpt(har, "log"), "entries"), Arr([])))
  }

  /** The JSON texts of the upload, or `None` when reading it threw. */
  function UploadTexts(f: File, parse: string -> Option<Value>, decode: string -> string): Option<seq<string>> {
    if !IsHarUpload(f) then Some([f.text])
    else
      match parse(f.text)
      case None => None
      case Some(har) =>
        match HarEntries(har)
        case Err(_) => None
        case Ok(entries) =>
          match Bodies(entries, decode)
          case Err(_) => None
          case Ok(bodies) => Some(bodies)
  }

  lemma {:induction false} BodiesErrSticks(entries: seq<Value>, decode: string -> string, n: nat)
    requires n <= |entries| && Bodies(entries[..n], decode).Err?
    ensures Bodies(entries, decode).Err?
    decreases |entries| - n
  {
    if n < |entries| {
      assert entries[..n + 1][..n] == entries[..n];
      BodiesErrSticks(entries, decode, n + 1);
    } else {
      assert entries[..n] == entries;
    }
  }

  /** The entry loop: collect the bodies, or report that reading the upload threw. */
  method ReadUpload(f: File, parse: string -> Option<Value>, decode: string -> string) returns (texts: Option<seq<string>>)
    ensures texts == UploadTexts(f, parse, decode)
  {
    if !IsHarUpload(f) {
      return Some([f.text]);
    }
    var har := parse(f.text);
    if har.None? {
      return None;
    }
    var entries := HarEntries(har.value);
    if entries.Err? {
      return None;
    }
    var es := entries.value;
    var jsonTexts := [];
    for k := 0 to |es|
      invariant Bodies(es[..k], decode) == Ok(jsonTexts)
    {
      BodiesStep(es, decode, k, jsonTexts);
      var body := EntryBody(es[k], decode);
      match body {
        case Err(_) =>
          BodiesErrSticks(es, decode, k + 1);
          return None;
        case Ok(Some(b)) =>
          jsonTexts := jsonTexts + [b];
        case Ok(None) =>
      }
    }
    assert es[..|es|] == es;
    texts := Some(jsonTexts);
  }

  lemma BodiesStep(es: seq<Value>, decode: string -> string, k: nat, texts: seq<string>)
    requires k < |es| && Bodies(es[..k], decode) == Ok(texts)
    ensures Bodies(es[..k + 1], decode) ==
      match EntryBody(es[k], decode)
      case Err(e) => Err(e)
      case Ok(Some(b)) => Ok(texts + [b])
      case Ok(None) => Ok(texts)
  {
    assert es[..k + 1][..k] == es[..k];
  }

  /** An upload that is not a HAR is one JSON payload, taken whole. */
  lemma RawUploadIsOnePayload(f: File, parse: string -> Option<Value>, decode: string -> string)
    requires !IsHarUpload(f)
    ensures UploadTexts(f, parse, decode) == Some([f.text])
  {
  }

  /** Every collected body is from an enroll-host entry with text, and looks like JSON. */
  lemma {:induction false} BodiesAreJson(entries: seq<Value>, decode: string -> string)
    requires Bodies(entries, decode).Ok?
    ensures forall k :: 0 <= k < |Bodies(entries, decode).value| ==> LooksLikeJson(Bodies(entries, decode).value[k])
    ensures |Bodies(entries, decode).value| <= |entries|
  {
    if entries != [] {
      var init := entries[..|entries| - 1];
      BodiesAreJson(init, decode);
      var body := EntryBody(entries[|entries| - 1], decode);
      assert Bodies(entries, decode).value ==
        Bodies(init, decode).value + (if body.value.Some? then [body.value.value] else []);
    }
  }

  /** An entry from any other host contributes nothing. */
  lemma OtherHostSkipped(e: Value, decode: string -> string, url: string)
    requires EntryUrl(e) == Ok(Str(url)) && !MatchesEnrollHost(url)
    ensures EntryBody(e, decode) == Ok(None)
  {
    assert FromEnrollHost(Str(url)) == Ok(false);
  }

  // ---------------------------------------------------------------------------
  // Parsing and merging

  /** `jsonTexts.flatMap((t) => parseEnrollJSON(t))` */
  function AllItems(texts: seq<string>, parse: string -> Option<Value>): seq<ScheduleItem> {
    if texts == [] then []
    else AllItems(texts[..|texts| - 1], parse) + EnrollItems(parse(texts[|texts| - 1]))
  }

  /** `` `${it.code}|${it.section || ''}` ``: converting the section to a string may throw. */
  function KeyOf(it: ScheduleItem): Result<string, Exception> {
    var section :- ToStr(Or(it.section, Str("")));
    Ok(it.code + "|" + section)
  }

  /** Each item with its key, or the first exception. */
  function Keyed(items: seq<ScheduleItem>): Result<seq<(string, ScheduleItem)>, Exception> {
    if items == [] then Ok([])
    else
      var init :- Keyed(items[..|items| - 1]);
      var key :- KeyOf(items[|items| - 1]);
      Ok(init + [(key, items[|items| - 1])])
  }

  /** `Array.from(new Set(xs))`: the first occurrence of each element, in order. */
  function Distinct<T(==, !new)>(xs: seq<T>): (r: seq<T>)
    ensures forall x :: x in r <==> x in xs
    ensures forall i, j :: 0 <= i < j < |r| ==> r[i] != r[j]
    ensures |r| <= |xs|
  {
    if xs == [] then []
    else if xs[|xs| - 1] in xs[..|xs| - 1] then Distinct(xs[..|xs| - 1])
    else Distinct(xs[..|xs| - 1]) + [xs[|xs| - 1]]
  }

  function KeysOf(ps: seq<(string, ScheduleItem)>): (r: seq<string>)
    ensures |r| == |ps| && forall k :: 0 <= k < |ps| ==> r[k] == ps[k].0
  {
    seq(|ps|, k requires 0 <= k < |ps| => ps[k].0)
  }

  /** The position of `key` in the map's entries, or the position a new entry takes. */
  function Slot(m: seq<(string, ScheduleItem)>, key: string): (k: nat)
    ensures k <= |m|
    ensures k < |m| ==> m[k].0 == key
    ensures k == |m| <==> key !in KeysOf(m)
  {
    if m == [] then 0
    else if m[|m| - 1].0 == key then |m| - 1
    else
      var k := Slot(m[..|m| - 1], key);
      assert KeysOf(m[..|m| - 1]) == KeysOf(m)[..|m| - 1];
      if k == |m| - 1 then |m| else k
  }

  /**
   * `dedup.set(key, { code, section, instructors: Array.from(new Set([...old, ...new])) })`:
   * a JavaScript `Map` keeps the position of a key's first insertion.
   */
  function Put(m: seq<(string, ScheduleItem)>, p: (string, ScheduleItem)): seq<(string, ScheduleItem)> {
    var k := Slot(m, p.0);
    var before := if k < |m| then m[k].1.instructors else [];
    var merged := ScheduleItem(p.1.code, p.1.section, Distinct(before + p.1.instructors));
    if k < |m| then m[k := (p.0, merged)] else m + [(p.0, merged)]
  }

  function MergeKeyed(ps: seq<(string, ScheduleItem)>): seq<(string, ScheduleItem)> {
    if ps == [] then []
    else Put(MergeKeyed(ps[..|ps| - 1]), ps[|ps| - 1])
  }

  function Values(m: seq<(string, ScheduleItem)>): (r: seq<ScheduleItem>)
    ensures |r| == |m| && forall k :: 0 <= k < |m| ==> r[k] == m[k].1
  {
    seq(|m|, k requires 0 <= k < |m| => m[k].1)
  }

  /** `Array.from(dedup.values())`, or the exception building the keys threw. */
  function Merged(items: seq<ScheduleItem>): Result<seq<ScheduleItem>, Exception> {
    var ps :- Keyed(items);
    Ok(Values(MergeKeyed(ps)))
  }

  // ---------------------------------------------------------------------------
  // What the merge keeps

  /** The instructor lists of the entries with key `key`, concatenated in order. */
  function Gather(ps: seq<(string, ScheduleItem)>, key: string): seq<Value> {
    if ps == [] then []
    else if ps[|ps| - 1].0 == key then Gather(ps[..|ps| - 1], key) + ps[|ps| - 1].1.instructors
    else Gather(ps[..|ps| - 1], key)
  }

  /** The index of the last entry with key `key`, or -1. */
  function LastWith(ps: seq<(string, ScheduleItem)>, key: string): (k: int)
    ensures -1 <= k < |ps|
    ensures k >= 0 ==> ps[k].0 == key && forall j :: k < j < |ps| ==> ps[j].0 != key
    ensures k == -1 <==> key !in KeysOf(ps)
  {
    if ps == [] then -1
    else if ps[|ps| - 1].0 == key then |ps| - 1
    else
      assert KeysOf(ps[..|ps| - 1]) == KeysOf(ps)[..|ps| - 1];
      LastWith(ps[..|ps| - 1], key)
  }

  lemma {:induction false} DistinctSnoc<T(!new)>(xs: seq<T>, x: T)
    ensures Distinct(xs + [x]) == if x in xs then Distinct(xs) else Distinct(xs) + [x]
  {
    assert (xs + [x])[..|xs|] == xs;
  }

  /** Taking the distinct elements early does not change the union. */
  lemma {:induction false} DistinctAbsorbs<T(!new)>(a: seq<T>, b: seq<T>)
    ensures Distinct(Distinct(a) + b) == Distinct(a + b)
  {
    if b != [] {
      var init, x := b[..|b| - 1], b[|b| - 1];
      DistinctAbsorbs(a, init);
      assert Distinct(a) + b == (Distinct(a) + init) + [x];
      assert a + b == (a + init) + [x];
      DistinctSnoc(Distinct(a) + init, x);
      DistinctSnoc(a + init, x);
    } else {
      assert Distinct(a) + b == Distinct(a);
      assert a + b == a;
      DistinctIdempotent(a);
    }
  }

  lemma {:induction false} DistinctOfDistinct<T(!new)>(xs: seq<T>)
    requires forall i, j :: 0 <= i < j < |xs| ==> xs[i] != xs[j]
    ensures Distinct(xs) == xs
  {
    if xs != [] {
      var init := xs[..|xs| - 1];
      DistinctOfDistinct(init);
      assert xs[|xs| - 1] !in init;
      assert init + [xs[|xs| - 1]] == xs;
    }
  }

  lemma DistinctIdempotent<T(!new)>(xs: seq<T>)
    ensures Distinct(Distinct(xs)) == Distinct(xs)
  {
    DistinctOfDistinct(Distinct(xs));
  }

  lemma PutKeys(m: seq<(string, ScheduleItem)>, p: (string, ScheduleItem))
    ensures KeysOf(Put(m, p)) == if p.0 in KeysOf(m) then KeysOf(m) else KeysOf(m) + [p.0]
  {
  }

  /** The merged keys are the distinct keys, in order of first appearance. */
  lemma {:induction false} MergeKeyedKeys(ps: seq<(string, ScheduleItem)>)
    ensures KeysOf(MergeKeyed(ps)) == Distinct(KeysOf(ps))
  {
    if ps != [] {
      var init, last := ps[..|ps| - 1], ps[|ps| - 1];
      assert ps == init + [last];
      assert MergeKeyed(ps) == Put(MergeKeyed(init), last);
      MergeKeyedKeys(init);
      PutKeys(MergeKeyed(init), last);
      KeysOfSnoc(init, last);
      DistinctSnoc(KeysOf(init), last.0);
    }
  }

  lemma KeysOfSnoc(ps: seq<(string, ScheduleItem)>, p: (string, ScheduleItem))
    ensures KeysOf(ps + [p]) == KeysOf(ps) + [p.0]
  {
  }

  /** What the merged entry for a key holds. */
  predicate MergedEntry(ps: seq<(string, ScheduleItem)>, e: (string, ScheduleItem)) {
    var last := LastWith(ps, e.0);
    last >= 0 &&
    e.1.code == ps[last].1.code && e.1.section == ps[last].1.section &&
    e.1.instructors == Distinct(Gather(ps, e.0))
  }

  lemma GatherAbsent(ps: seq<(string, ScheduleItem)>, key: string)
    requires key !in KeysOf(ps)
    ensures Gather(ps, key) == []
  {
    if ps != [] {
      assert KeysOf(ps[..|ps| - 1]) == KeysOf(ps)[..|ps| - 1];
      GatherAbsent(ps[..|ps| - 1], key);
    }
  }

  lemma PutEntries(ps: seq<(string, ScheduleItem)>, p: (string, ScheduleItem))
    requires KeysOf(MergeKeyed(ps)) == Distinct(KeysOf(ps))
    requires forall j :: 0 <= j < |MergeKeyed(ps)| ==> MergedEntry(ps, MergeKeyed(ps)[j])
    ensures forall j :: 0 <= j < |Put(MergeKeyed(ps), p)| ==> MergedEntry(ps + [p], Put(MergeKeyed(ps), p)[j])
  {
    var m := MergeKeyed(ps);
    var k := Slot(m, p.0);
    var before := if k < |m| then m[k].1.instructors else [];
    if k == |m| {
      assert p.0 !in KeysOf(ps);
      GatherAbsent(ps, p.0);
      assert Distinct(Gather(ps, p.0)) == [];
    } else {
      assert MergedEntry(ps, m[k]);
    }
    MergedEntryNew(ps, p, before);
    forall j | 0 <= j < |Put(m, p)|
      ensures MergedEntry(ps + [p], Put(m, p)[j])
    {
      if j != k {
        assert Put(m, p)[j] == m[j];
        MergedEntryOther(ps, p, m[j]);
      }
    }
  }

  /** An entry for another key is not affected by one more item. */
  lemma MergedEntryOther(ps: seq<(string, ScheduleItem)>, p: (string, ScheduleItem), e: (string, ScheduleItem))
    requires e.0 != p.0 && MergedEntry(ps, e)
    ensures MergedEntry(ps + [p], e)
  {
    var qs := ps + [p];
    assert qs[..|qs| - 1] == ps;
    assert qs[LastWith(ps, e.0)] == ps[LastWith(ps, e.0)];
  }

  /** The entry for the new item's key: its code and section, and the union of the lists. */
  lemma MergedEntryNew(ps: seq<(string, ScheduleItem)>, p: (string, ScheduleItem), before: seq<Value>)
    requires before == Distinct(Gather(ps, p.0))
    ensures MergedEntry(ps + [p], (p.0, ScheduleItem(p.1.code, p.1.section, Distinct(before + p.1.instructors))))
  {
    var qs := ps + [p];
    assert qs[..|qs| - 1] == ps;
    DistinctAbsorbs(Gather(ps, p.0), p.1.instructors);
  }

  /**
   * The merge: one entry per distinct key, in order of the key's first appearance;
   * each entry's code and section are those of the last item with its key, and its
   * instructors are the union of all the lists for that key, duplicate-free, in
   * first-seen order.
   */
  lemma {:induction false} MergeKeyedSpec(ps: seq<(string, ScheduleItem)>)
    ensures KeysOf(MergeKeyed(ps)) == Distinct(KeysOf(ps))
    ensures forall j :: 0 <= j < |MergeKeyed(ps)| ==> MergedEntry(ps, MergeKeyed(ps)[j])
  {
    MergeKeyedKeys(ps);
    if ps != [] {
      var init := ps[..|ps| - 1];
      MergeKeyedSpec(init);
      assert ps == init + [ps[|ps| - 1]];
      PutEntries(init, ps[|ps| - 1]);
    }
  }

  lemma {:induction false} KeyedErrSticks(items: seq<ScheduleItem>, n: nat)
    requires n <= |items| && Keyed(items[..n]).Err?
    ensures Keyed(items).Err?
    decreases |items| - n
  {
    if n < |items| {
      assert items[..n + 1][..n] == items[..n];
      KeyedErrSticks(items, n + 1);
    } else {
      assert items[..n] == items;
    }
  }

  /** The merge loop over the items, with the `Map` as a list of entries. */
  method MergeItems(items: seq<ScheduleItem>) returns (r: Result<seq<ScheduleItem>, Exception>)
    ensures r == Merged(items)
  {
    var dedup: seq<(string, ScheduleItem)> := [];
    ghost var ps: seq<(string, ScheduleItem)> := [];
    for k := 0 to |items|
      invariant Keyed(items[..k]) == Ok(ps) && dedup == MergeKeyed(ps)
    {
      assert items[..k + 1][..k] == items[..k];
      var key := KeyOf(items[k]);
      if key.Err? {
        KeyedErrSticks(items, k + 1);
        assert Merged(items) == Err(Keyed(items).error);
        return Err(Keyed(items).error);
      }
      dedup := Put(dedup, (key.value, items[k]));
      ps := ps + [(key.value, items[k])];
      assert ps[..|ps| - 1] == ps[..|ps| - 1];
    }
    assert items[..|items|] == items;
    r := Ok(Values(dedup));
  }

  // ---------------------------------------------------------------------------
  // The request

  /** What the route answers, and the store's tables afterwards. */
  function PostOutcome(courses: map<string, Course>, t: OfferingTables, isAdmin: bool, form: Option<Form>,
                       parse: string -> Option<Value>, decode: string -> string): (Response, OfferingTables)
  {
    if !isAdmin then (Forbidden, t)
    else if form.None? then (NotMultipart, t)
    else if form.value.term == "" then (MissingTerm, t)
    else if MissingFileField(form.value.file) then (MissingFile, t)
    else if form.value.file.TextField? then (ServerError, t)  // `file.arrayBuffer()` is not a function
    else
      match UploadTexts(form.value.file.f, parse, decode)
      case None => (UploadUnreadable, t)
      case Some(texts) => ImportOutcome(courses, t, form.value.term, texts, parse)
  }

  /** Parse, merge and upsert the payloads of an accepted upload. */
  function ImportOutcome(courses: map<string, Course>, t: OfferingTables, term: string, texts: seq<string>,
                         parse: string -> Option<Value>): (Response, OfferingTables)
  {
    match Merged(AllItems(texts, parse))
    case Err(_) => (ServerError, t)
    case Ok(merged) =>
      var run := Schedule(courses, term, Start(t), merged);
      (if run.thrown then ServerError else Imported(term, run.offeringCount, run.instructorLinks), run.tables)
  }

  /** `jsonTexts.flatMap((t) => parseEnrollJSON(t))` */
  method ParseAll(texts: seq<string>, parse: string -> Option<Value>) returns (items: seq<ScheduleItem>)
    ensures items == AllItems(texts, parse)
  {
    items := [];
    for k := 0 to |texts|
      invariant items == AllItems(texts[..k], parse)
    {
      assert texts[..k + 1][..k] == texts[..k];
      var parsed := ParseEnrollJSON(parse, texts[k]);
      items := items + parsed;
    }
    assert texts[..|texts|] == texts;
  }

  method Import(db: Database, term: string, texts: seq<string>, parse: string -> Option<Value>) returns (resp: Response)
    modifies db`offerings, db`instructors, db`offeringInstructors, db`courseInstructors
    ensures (resp, db.Tables()) == ImportOutcome(db.courses, old(db.Tables()), term, texts, parse)
  {
    var items := ParseAll(texts, parse);
    var merged := MergeItems(items);
    if merged.Err? {
      return ServerError;
    }
    var counts := UpsertSchedule(db, term, merged.value);
    match counts {
      case None => resp := ServerError;
      case Some(c) => resp := Imported(term, c.offeringCount, c.instructorLinks);
    }
  }

  /**
   * `POST(req)`: `isAdmin` is whether the session's user is an administrator, `form`
   * the form data (`None` when the body is not form data), `parse` is `JSON.parse`
   * and `decode` the base64 decoder.
   */
  method Post(db: Database, isAdmin: bool, form: Option<Form>, parse: string -> Option<Value>, decode: string -> string)
    returns (resp: Response)
    modifies db`offerings, db`instructors, db`offeringInstructors, db`courseInstructors
    ensures (resp, db.Tables()) == PostOutcome(db.courses, old(db.Tables()), isAdmin, form, parse, decode)
  {
    if !isAdmin {
      return Forbidden;
    }
    if form.None? {
      return NotMultipart;
    }
    var term := form.value.term;
    if term == "" {
      return MissingTerm;
    }
    if MissingFileField(form.value.file) {
      return MissingFile;
    }
    if form.value.file.TextField? {
      return ServerError;
    }
    var texts := ReadUpload(form.value.file.f, parse, decode);
    if texts.None? {
      return UploadUnreadable;
    }
    resp := Import(db, term, texts.value, parse);
  }

  /**
   * The status the route answers with: 403 exactly when the caller is not an administrator;
   * 400 exactly, for an administrator, when the body is not form data, the term or the
   * file is missing, or the upload cannot be read; 500 for a file field sent as a non-empty string.
   */
  lemma PostStatus(courses: map<string, Course>, t: OfferingTables, isAdmin: bool, form: Option<Form>,
                   parse: string -> Option<Value>, decode: string -> string)
    ensures var code := Status(PostOutcome(courses, t, isAdmin, form, parse, decode).0);
      (code == 403 <==> !isAdmin) &&
      (code == 400 <==> (isAdmin && BadRequest(form, parse, decode))) &&
      (isAdmin && form.Some? && form.value.term != "" && form.value.file.TextField? && form.value.file.s != "" ==> code == 500)
  {
    if isAdmin && form.Some? && form.value.term != "" && form.value.file.FileUpload? {
      var texts := UploadTexts(form.value.file.f, parse, decode);
      if texts.Some? {
        ImportNeverRefuses(courses, t, form.value.term, texts.value, parse);
      }
    }
  }

  /** The form is not form data, lacks the term or the file, or its upload cannot be read. */
  predicate BadRequest(form: Option<Form>, parse: string -> Option<Value>, decode: string -> string) {
    form.None? || form.value.term == "" || MissingFileField(form.value.file) ||
    (form.value.file.FileUpload? && UploadTexts(form.value.file.f, parse, decode).None?)
  }

  /** Once the upload is read, the answer is an import or a server error, never a refusal. */
  lemma ImportNeverRefuses(courses: map<string, Course>, t: OfferingTables, term: string, texts: seq<string>,
                           parse: string -> Option<Value>)
    ensures var r := ImportOutcome(courses, t, term, texts, parse).0;
      r.Imported? || r.ServerError?
  {
  }

  /** A refused request (403 or 400) and a failed merge leave the store as it was. */
  lemma RefusedRequestWritesNothing(courses: map<string, Course>, t: OfferingTables, isAdmin: bool, form: Option<Form>,
                                    parse: string -> Option<Value>, decode: string -> string)
    requires Status(PostOutcome(courses, t, isAdmin, form, parse, decode).0) in {400, 403}
    ensures PostOutcome(courses, t, isAdmin, form, parse, decode).1 == t
    ensures !isAdmin ==> PostOutcome(courses, t, isAdmin, form, parse, decode).0 == Forbidden
  {
  }

  /**
   * An import that succeeds reports one offering per merged item whose course exists,
   * and one link per non-empty instructor name of those items; the merged items have
   * distinct keys.
   */
  lemma ImportedCounts(courses: map<string, Course>, t: OfferingTables, term: string, f: File,
                       parse: string -> Option<Value>, decode: string -> string, texts: seq<string>)
    requires UploadTexts(f, parse, decode) == Some(texts) && Merged(AllItems(texts, parse)).Ok?
    requires PostOutcome(courses, t, true, Some(Form(term, FileUpload(f))), parse, decode).0.Imported?
    ensures var merged := Merged(AllItems(texts, parse)).value;
      var resp := PostOutcome(courses, t, true, Some(Form(term, FileUpload(f))), parse, decode).0;
      resp.offerings == |Known(courses, merged)| && resp.instructorsLinked == KnownLinks(courses, merged) &&
      resp.offerings <= |merged|
  {
    var merged := Merged(AllItems(texts, parse)).value;
    ScheduleCounts(courses, term, Start(t), merged);
    KnownShorter(courses, merged);
  }

  lemma {:induction false} KnownShorter(courses: map<string, Course>, items: seq<ScheduleItem>)
    ensures |Known(courses, items)| <= |items|
  {
    if items != [] {
      KnownShorter(courses, items[..|items| - 1]);
    }
  }

  /** The merged items have pairwise distinct keys, one per distinct key of the parsed items. */
  lemma MergedKeysDistinct(items: seq<ScheduleItem>)
    requires Keyed(items).Ok?
    ensures var m := MergeKeyed(Keyed(items).value);
      |m| == |Distinct(KeysOf(Keyed(items).value))| &&
      forall i, j :: 0 <= i < j < |m| ==> m[i].0 != m[j].0
  {
    var m := MergeKeyed(Keyed(items).value);
    MergeKeyedKeys(Keyed(items).value);
    assert forall i :: 0 <= i < |m| ==> KeysOf(m)[i] == m[i].0;
  }

  /** Uploading the same file again changes nothing in the store and gives the same answer. */
  lemma RepeatedUploadIdempotent(courses: map<string, Course>, t: OfferingTables, isAdmin: bool, form: Option<Form>,
                                 parse: string -> Option<Value>, decode: string -> string)
    ensures var once := PostOutcome(courses, t, isAdmin, form, parse, decode);
      PostOutcome(courses, once.1, isAdmin, form, parse, decode) == once
  {
    if isAdmin && form.Some? && form.value.term != "" && form.value.file.FileUpload? {
      var texts := UploadTexts(form.value.file.f, parse, decode);
      if texts.Some? && Merged(AllItems(texts.value, parse)).Ok? {
        ScheduleIdempotent(courses, form.value.term, t, Merged(AllItems(texts.value, parse)).value);
      }
    }
  }
}
