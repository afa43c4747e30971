/**
 * `upsertSchedule` of lib/schedule.ts (the same loop, without the counts, is in
 * scripts/scrape-uw.ts): for each schedule item whose course exists, insert the
 * (course, term, section) offering if absent, then for each instructor name insert the
 * instructor, the offering link and the course link if absent.
 *
 * `Schedule` is the specification: the run over the items as a function of the store's
 * tables, with the counts the call returns and whether it threw part-way.
 */
module ScheduleUpsert {
  import opened Common
  import opened Text
  import opened Js
  import opened Store
  import opened EnrollParser

  /** The counts `upsertSchedule` returns. */
  datatype Counts = Counts(offeringCount: nat, instructorLinks: nat)

  /** The state of a run: the tables, the counters, and whether an exception has ended it. */
  datatype Run = Run(tables: OfferingTables, offeringCount: nat, instructorLinks: nat, thrown: bool)

  /** The state of the instructor loop of one item. */
  datatype Linked = Linked(tables: OfferingTables, links: nat, thrown: bool)

  function Start(t: OfferingTables): Run {
    Run(t, 0, 0, false)
  }

  /** What the call returns, or `None` when it threw. */
  function Reported(r: Run): Option<Counts> {
    if r.thrown then None else Some(Counts(r.offeringCount, r.instructorLinks))
  }

  /**
   * `s.section || ''` as the section of the offering's key: a falsy section is `""`,
   * and a truthy one must be a string, or the store rejects the query.
   */
  function SectionKey(v: Value): Option<string> {
    if !Truthy(v) then Some("") else if v.Str? then Some(v.s) else None
  }

  // ---------------------------------------------------------------------------
  // Offerings

  predicate NoDuplicates(offs: seq<Offering>) {
    forall i, j :: 0 <= i < j < |offs| ==> offs[i] != offs[j]
  }

  /** The id of offering `o`: the index of its first row, or the id a new row gets. */
  function OfferingId(offs: seq<Offering>, o: Offering): (k: nat)
    ensures k <= |offs|
    ensures k < |offs| <==> o in offs
    ensures k < |offs| ==> offs[k] == o
    ensures forall j :: 0 <= j < k ==> offs[j] != o
  {
    if offs == [] then 0
    else if offs[0] == o then 0
    else 1 + OfferingId(offs[1..], o)
  }

  /** The offering upsert with `update: {}`: insert the row when it is absent. */
  function InsertOffering(offs: seq<Offering>, o: Offering): (r: seq<Offering>)
    ensures o in r && |offs| <= |r| && r[..|offs|] == offs
    ensures r[OfferingId(offs, o)] == o && OfferingId(r, o) == OfferingId(offs, o)
    ensures NoDuplicates(offs) ==> NoDuplicates(r)
  {
    if o in offs then offs
    else
      var r := offs + [o];
      assert forall j :: 0 <= j < |offs| ==> r[j] == offs[j];
      r
  }

  /** Rows appended after an offering's first row do not change its id. */
  lemma OfferingIdStable(p: seq<Offering>, q: seq<Offering>, o: Offering)
    requires |p| <= |q| && q[..|p|] == p && o in p
    ensures OfferingId(q, o) == OfferingId(p, o)
  {
    var k := OfferingId(p, o);
    assert q[k] == o;
    assert forall j :: 0 <= j < k ==> q[j] == p[j];
  }

  // ---------------------------------------------------------------------------
  // Instructor links

  /** The three upserts of one instructor name. */
  function Link(t: OfferingTables, id: nat, code: string, name: string): OfferingTables {
    t.(instructors := t.instructors + {name},
       offeringLinks := t.offeringLinks + {(id, name)},
       courseLinks := t.courseLinks + {(code, name)})
  }

  /** One turn of `for (const name of s.instructors)`: `name.trim()` throws on a non-string. */
  function LinkStep(l: Linked, id: nat, code: string, name: Value): Linked {
    if l.thrown then l
    else if !name.Str? then l.(thrown := true)
    else
      var trimmed := Trim(name.s);
      if trimmed == "" then l
      else Linked(Link(l.tables, id, code, trimmed), l.links + 1, false)
  }

  function LinkAll(t: OfferingTables, id: nat, code: string, names: seq<Value>): Linked {
    if names == [] then Linked(t, 0, false)
    else LinkStep(LinkAll(t, id, code, names[..|names| - 1]), id, code, names[|names| - 1])
  }

  /** The instructor list throws when one of its entries is not a string. */
  predicate Throws(names: seq<Value>) {
    exists k :: 0 <= k < |names| && !names[k].Str?
  }

  /** The trimmed, non-empty names, in order, up to the first entry that throws. */
  function LinkedNames(names: seq<Value>): (r: seq<string>)
    ensures forall k :: 0 <= k < |r| ==> r[k] != ""
  {
    if names == [] then []
    else
      var init, x := names[..|names| - 1], names[|names| - 1];
      if Throws(init) || !x.Str? then LinkedNames(init)
      else LinkedNames(init) + TrimmedName(x.s)
  }

  /** `n` is the trimmed text of one of the string entries of `names`. */
  predicate NameFrom(n: string, names: seq<Value>) {
    exists j :: 0 <= j < |names| && names[j].Str? && n == Trim(names[j].s)
  }

  /** Every linked name is the trimmed text of a string entry of the list. */
  lemma {:induction false} LinkedNamesFrom(names: seq<Value>)
    ensures forall k :: 0 <= k < |LinkedNames(names)| ==> NameFrom(LinkedNames(names)[k], names)
  {
    if names != [] {
      var init, x := names[..|names| - 1], names[|names| - 1];
      assert init + [x] == names;
      LinkedNamesFrom(init);
      LinkedNamesSnoc(init, x);
      NamesFromStep(LinkedNames(init), LinkedNames(names), init, x);
    }
  }

  /** Helper for LinkedNamesFrom: one more entry keeps every linked name traceable. */
  lemma NamesFromStep(before: seq<string>, after: seq<string>, init: seq<Value>, x: Value)
    requires forall k :: 0 <= k < |before| ==> NameFrom(before[k], init)
    requires after == before || (x.Str? && after == before + [Trim(x.s)])
    ensures forall k :: 0 <= k < |after| ==> NameFrom(after[k], init + [x])
  {
    NameFromPrefix(init, x);
    forall k | 0 <= k < |after| ensures NameFrom(after[k], init + [x]) {
      if k < |before| {
        assert after[k] == before[k];
      }
    }
  }

  lemma NameFromPrefix(names: seq<Value>, x: Value)
    ensures forall n :: NameFrom(n, names) ==> NameFrom(n, names + [x])
    ensures x.Str? ==> NameFrom(Trim(x.s), names + [x])
  {
    forall n | NameFrom(n, names) ensures NameFrom(n, names + [x]) {
      var j :| 0 <= j < |names| && names[j].Str? && n == Trim(names[j].s);
      assert (names + [x])[j] == names[j];
    }
    if x.Str? {
      assert (names + [x])[|names|] == x;
    }
  }

  /** The name an instructor string links: its trimmed text, unless that is empty. */
  function TrimmedName(s: string): (r: seq<string>)
    ensures forall k :: 0 <= k < |r| ==> r[k] != ""
  {
    var trimmed := Trim(s);
    if trimmed == "" then [] else [trimmed]
  }

  /** The tables with the links of all the given names added. */
  function AddLinks(t: OfferingTables, id: nat, code: string, names: seq<string>): OfferingTables {
    t.(instructors := t.instructors + (set n | n in names),
       offeringLinks := t.offeringLinks + (set n | n in names :: (id, n)),
       courseLinks := t.courseLinks + (set n | n in names :: (code, n)))
  }

  lemma ThrowsSnoc(names: seq<Value>, x: Value)
    ensures Throws(names + [x]) <==> Throws(names) || !x.Str?
  {
    var ys := names + [x];
    if Throws(ys) {
      var k :| 0 <= k < |ys| && !ys[k].Str?;
      if k < |names| { assert names[k] == ys[k]; }
    }
    if Throws(names) {
      var k :| 0 <= k < |names| && !names[k].Str?;
      assert ys[k] == names[k];
    }
    assert ys[|names|] == x;
  }

  lemma LinkedNamesSnoc(names: seq<Value>, x: Value)
    ensures LinkedNames(names + [x]) ==
      if Throws(names) || !x.Str? then LinkedNames(names)
      else if Trim(x.s) == "" then LinkedNames(names)
      else LinkedNames(names) + [Trim(x.s)]
  {
    var ys := names + [x];
    assert ys[..|ys| - 1] == names && ys[|ys| - 1] == x;
  }

  lemma AddLinksSnoc(t: OfferingTables, id: nat, code: string, ns: seq<string>, n: string)
    ensures AddLinks(t, id, code, ns + [n]) == Link(AddLinks(t, id, code, ns), id, code, n)
  {
    assert (set m | m in ns + [n]) == (set m | m in ns) + {n};
    assert (set m | m in ns + [n] :: (id, m)) == (set m | m in ns :: (id, m)) + {(id, n)};
    assert (set m | m in ns + [n] :: (code, m)) == (set m | m in ns :: (code, m)) + {(code, n)};
  }

  /**
   * The instructor loop in closed form: the links of every trimmed non-empty name up to
   * the first non-string entry are added, each counted once, and the loop throws exactly
   * when some entry is not a string.
   */
  lemma {:induction false} LinkAllClosedForm(t: OfferingTables, id: nat, code: string, names: seq<Value>)
    ensures LinkAll(t, id, code, names) ==
      Linked(AddLinks(t, id, code, LinkedNames(names)), |LinkedNames(names)|, Throws(names))
  {
    if names == [] {
      assert AddLinks(t, id, code, []) == t;
    } else {
      var init, x := names[..|names| - 1], names[|names| - 1];
      assert names == init + [x];
      LinkAllClosedForm(t, id, code, init);
      LinkedNamesSnoc(init, x);
      ThrowsSnoc(init, x);
      if !Throws(init) && x.Str? && Trim(x.s) != "" {
        AddLinksSnoc(t, id, code, LinkedNames(init), Trim(x.s));
      }
    }
  }

  // ---------------------------------------------------------------------------
  // The run over the items

  /** One turn of `for (const s of items)`. */
  function ItemStep(courses: map<string, Course>, term: string, r: Run, s: ScheduleItem): Run {
    if r.thrown || s.code !in courses then r  // `if (!course) continue`
    else
      match SectionKey(s.section)
      case None => r.(thrown := true)
      case Some(section) =>
        var o := Offering(s.code, term, section);
        var id := OfferingId(r.tables.offerings, o);
        var l := LinkAll(r.tables.(offerings := InsertOffering(r.tables.offerings, o)), id, s.code, s.instructors);
        Run(l.tables, r.offeringCount + 1, r.instructorLinks + l.links, l.thrown)
  }

  function Schedule(courses: map<string, Course>, term: string, r: Run, items: seq<ScheduleItem>): Run {
    if items == [] then r
    else ItemStep(courses, term, Schedule(courses, term, r, items[..|items| - 1]), items[|items| - 1])
  }

  lemma ScheduleStep(courses: map<string, Course>, term: string, r: Run, items: seq<ScheduleItem>, k: nat)
    requires k < |items|
    ensures Schedule(courses, term, r, items[..k + 1]) == ItemStep(courses, term, Schedule(courses, term, r, items[..k]), items[k])
  {
    assert items[..k + 1][..k] == items[..k];
  }

  /** After an exception nothing more happens. */
  lemma {:induction false} ScheduleThrownSticks(courses: map<string, Course>, term: string, r: Run, items: seq<ScheduleItem>)
    requires r.thrown
    ensures Schedule(courses, term, r, items) == r
  {
    if items != [] {
      ScheduleThrownSticks(courses, term, r, items[..|items| - 1]);
    }
  }

  lemma {:induction false} ScheduleAppend(courses: map<string, Course>, term: string, r: Run, a: seq<ScheduleItem>, b: seq<ScheduleItem>)
    ensures Schedule(courses, term, r, a + b) == Schedule(courses, term, Schedule(courses, term, r, a), b)
  {
    if b == [] {
      assert a + b == a;
    } else {
      var init := b[..|b| - 1];
      assert (a + b)[..|a + b| - 1] == a + init;
      assert (a + b)[|a + b| - 1] == b[|b| - 1];
      ScheduleAppend(courses, term, r, a, init);
    }
  }

  lemma LinkAllSticks(t: OfferingTables, id: nat, code: string, names: seq<Value>, k: nat)
    requires k < |names| && !names[k].Str?
    ensures LinkAll(t, id, code, names).thrown
  {
    LinkAllClosedForm(t, id, code, names);
  }

  // ---------------------------------------------------------------------------
  // The method

  /** The instructor loop of one item, on the store. */
  method LinkInstructors(db: Database, id: nat, code: string, names: seq<Value>) returns (links: nat, ok: bool)
    modifies db`instructors, db`offeringInstructors, db`courseInstructors
    ensures LinkAll(old(db.Tables()), id, code, names) == Linked(db.Tables(), links, !ok)
  {
    links := 0;
    for k := 0 to |names|
      invariant LinkAll(old(db.Tables()), id, code, names[..k]) == Linked(db.Tables(), links, false)
    {
      LinkAllSnoc(old(db.Tables()), id, code, names, k);
      if !names[k].Str? {
        LinkAllSticks(old(db.Tables()), id, code, names, k);
        LinkAllPrefixThrown(old(db.Tables()), id, code, names, k + 1);
        return links, false;
      }
      var trimmed := Trim(names[k].s);
      if trimmed != "" {
        LinkName(db, id, code, trimmed);
        links := links + 1;
      }
    }
    assert names[..|names|] == names;
    ok := true;
  }

  /** The three upserts of one instructor name, on the store. */
  method LinkName(db: Database, id: nat, code: string, name: string)
    modifies db`instructors, db`offeringInstructors, db`courseInstructors
    ensures db.Tables() == Link(old(db.Tables()), id, code, name)
  {
    db.instructors := db.instructors + {name};
    db.offeringInstructors := db.offeringInstructors + {(id, name)};
    db.courseInstructors := db.courseInstructors + {(code, name)};
  }

  /** One more name is one more loop turn. */
  lemma LinkAllSnoc(t: OfferingTables, id: nat, code: string, names: seq<Value>, k: nat)
    requires k < |names|
    ensures LinkAll(t, id, code, names[..k + 1]) == LinkStep(LinkAll(t, id, code, names[..k]), id, code, names[k])
  {
    assert names[..k + 1][..k] == names[..k];
  }

  /** Once the loop has thrown on a prefix, the whole list gives the same state. */
  lemma {:induction false} LinkAllPrefixThrown(t: OfferingTables, id: nat, code: string, names: seq<Value>, n: nat)
    requires n <= |names| && LinkAll(t, id, code, names[..n]).thrown
    ensures LinkAll(t, id, code, names) == LinkAll(t, id, code, names[..n])
    decreases |names| - n
  {
    if n < |names| {
      assert names[..n + 1][..n] == names[..n];
      LinkAllPrefixThrown(t, id, code, names, n + 1);
    } else {
      assert names[..n] == names;
    }
  }

  /** Once the run has thrown on a prefix, the whole list gives the same state. */
  lemma SchedulePrefixThrown(courses: map<string, Course>, term: string, r: Run, items: seq<ScheduleItem>, n: nat)
    requires n <= |items| && Schedule(courses, term, r, items[..n]).thrown
    ensures Schedule(courses, term, r, items) == Schedule(courses, term, r, items[..n])
  {
    assert items == items[..n] + items[n..];
    ScheduleAppend(courses, term, r, items[..n], items[n..]);
    ScheduleThrownSticks(courses, term, Schedule(courses, term, r, items[..n]), items[n..]);
  }

  /**
   * `upsertSchedule(term, items)`: the store's tables become those of the run, and the
   * counts are returned unless an exception ended the run; what was written before the
   * exception stays written.
   */
  method UpsertSchedule(db: Database, term: string, items: seq<ScheduleItem>) returns (r: Option<Counts>)
    modifies db`offerings, db`instructors, db`offeringInstructors, db`courseInstructors
    ensures db.Tables() == Schedule(db.courses, term, Start(old(db.Tables())), items).tables
    ensures r == Reported(Schedule(db.courses, term, Start(old(db.Tables())), items))
  {
    var offeringCount, instructorLinks := 0, 0;
    for k := 0 to |items|
      invariant Schedule(db.courses, term, Start(old(db.Tables())), items[..k]) ==
        Run(db.Tables(), offeringCount, instructorLinks, false)
    {
      ScheduleStep(db.courses, term, Start(old(db.Tables())), items, k);
      var thrown;
      offeringCount, instructorLinks, thrown := UpsertItem(db, term, items[k], offeringCount, instructorLinks);
      if thrown {
        SchedulePrefixThrown(db.courses, term, Start(old(db.Tables())), items, k + 1);
        return None;
      }
    }
    assert items[..|items|] == items;
    r := Some(Counts(offeringCount, instructorLinks));
  }

  /** The body of the item loop: skip an unknown course, else upsert the offering and link its instructors. */
  method UpsertItem(db: Database, term: string, s: ScheduleItem, offeringCount: nat, instructorLinks: nat)
    returns (count: nat, links: nat, thrown: bool)
    modifies db`offerings, db`instructors, db`offeringInstructors, db`courseInstructors
    ensures ItemStep(db.courses, term, Run(old(db.Tables()), offeringCount, instructorLinks, false), s) ==
      Run(db.Tables(), count, links, thrown)
  {
    count, links, thrown := offeringCount, instructorLinks, false;
    if s.code !in db.courses {
      return;
    }
    var section := SectionKey(s.section);
    if section.None? {
      thrown := true;
      return;
    }
    ItemStepKnown(db.courses, term, Run(db.Tables(), offeringCount, instructorLinks, false), s, section.value);
    var added, ok := UpsertAndLink(db, Offering(s.code, term, section.value), s.instructors);
    count, links, thrown := offeringCount + 1, instructorLinks + added, !ok;
  }

  /** The offering upsert, then the instructor loop for that offering. */
  method UpsertAndLink(db: Database, o: Offering, names: seq<Value>) returns (links: nat, ok: bool)
    modifies db`offerings, db`instructors, db`offeringInstructors, db`courseInstructors
    ensures LinkAll(old(db.Tables()).(offerings := InsertOffering(old(db.offerings), o)), OfferingId(old(db.offerings), o), o.course, names) ==
      Linked(db.Tables(), links, !ok)
  {
    var id := OfferingId(db.offerings, o);
    UpsertOffering(db, o);
    links, ok := LinkInstructors(db, id, o.course, names);
  }

  /** One item whose course exists and whose section is usable: the offering upsert, then the instructor loop. */
  lemma ItemStepKnown(courses: map<string, Course>, term: string, r: Run, s: ScheduleItem, section: string)
    requires !r.thrown && s.code in courses && SectionKey(s.section) == Some(section)
    ensures var o := Offering(s.code, term, section);
      var l := LinkAll(r.tables.(offerings := InsertOffering(r.tables.offerings, o)), OfferingId(r.tables.offerings, o), s.code, s.instructors);
      ItemStep(courses, term, r, s) == Run(l.tables, r.offeringCount + 1, r.instructorLinks + l.links, l.thrown)
  {
  }

  /** The offering upsert on the store. */
  method UpsertOffering(db: Database, o: Offering)
    modifies db`offerings
    ensures db.Tables() == old(db.Tables()).(offerings := InsertOffering(old(db.offerings), o))
  {
    if o !in db.offerings {
      db.offerings := db.offerings + [o];
    }
  }

  // ---------------------------------------------------------------------------
  // Properties of the run

  /** One item in closed form, when its course exists and its section is usable. */
  lemma ItemStepClosedForm(courses: map<string, Course>, term: string, r: Run, s: ScheduleItem)
    requires !r.thrown && s.code in courses && SectionKey(s.section).Some?
    ensures var o := Offering(s.code, term, SectionKey(s.section).value);
      var names := LinkedNames(s.instructors);
      ItemStep(courses, term, r, s) == Run(
        AddLinks(r.tables.(offerings := InsertOffering(r.tables.offerings, o)), OfferingId(r.tables.offerings, o), s.code, names),
        r.offeringCount + 1, r.instructorLinks + |names|, Throws(s.instructors))
  {
    var o := Offering(s.code, term, SectionKey(s.section).value);
    LinkAllClosedForm(r.tables.(offerings := InsertOffering(r.tables.offerings, o)), OfferingId(r.tables.offerings, o), s.code, s.instructors);
  }

  /** `b` extends `a`: old offerings keep their ids and no row or link is removed. */
  predicate Grows(a: OfferingTables, b: OfferingTables) {
    |a.offerings| <= |b.offerings| && b.offerings[..|a.offerings|] == a.offerings &&
    a.instructors <= b.instructors && a.offeringLinks <= b.offeringLinks && a.courseLinks <= b.courseLinks
  }

  lemma GrowsTransitive(a: OfferingTables, b: OfferingTables, c: OfferingTables)
    requires Grows(a, b) && Grows(b, c)
    ensures Grows(a, c)
  {
    assert c.offerings[..|a.offerings|] == c.offerings[..|b.offerings|][..|a.offerings|];
  }

  lemma ItemStepGrows(courses: map<string, Course>, term: string, r: Run, s: ScheduleItem)
    ensures Grows(r.tables, ItemStep(courses, term, r, s).tables)
  {
    if !r.thrown && s.code in courses && SectionKey(s.section).Some? {
      ItemStepClosedForm(courses, term, r, s);
    }
  }

  /** The run only inserts: existing offerings keep their rows and ids, and no link is removed. */
  lemma {:induction false} ScheduleGrows(courses: map<string, Course>, term: string, r: Run, items: seq<ScheduleItem>)
    ensures Grows(r.tables, Schedule(courses, term, r, items).tables)
  {
    if items == [] {
      assert r.tables.offerings[..|r.tables.offerings|] == r.tables.offerings;
    } else {
      var init := Schedule(courses, term, r, items[..|items| - 1]);
      ScheduleGrows(courses, term, r, items[..|items| - 1]);
      ItemStepGrows(courses, term, init, items[|items| - 1]);
      GrowsTransitive(r.tables, init.tables, Schedule(courses, term, r, items).tables);
    }
  }

  lemma AddLinksAbsorbed(a: OfferingTables, t: OfferingTables, id: nat, code: string, names: seq<string>)
    requires Grows(AddLinks(a, id, code, names), t)
    ensures AddLinks(t, id, code, names) == t
  {
    assert t.instructors + (set n | n in names) == t.instructors;
    assert t.offeringLinks + (set n | n in names :: (id, n)) == t.offeringLinks;
    assert t.courseLinks + (set n | n in names :: (code, n)) == t.courseLinks;
  }

  lemma InsertAbsorbed(offs: seq<Offering>, t: seq<Offering>, o: Offering)
    requires |InsertOffering(offs, o)| <= |t| && t[..|InsertOffering(offs, o)|] == InsertOffering(offs, o)
    ensures InsertOffering(t, o) == t && OfferingId(t, o) == OfferingId(offs, o)
  {
    var p := InsertOffering(offs, o);
    assert t[OfferingId(offs, o)] == p[OfferingId(offs, o)] == o;
    OfferingIdStable(p, t, o);
  }

  lemma InsertingStepAbsorbed(courses: map<string, Course>, term: string, r: Run, s: ScheduleItem, t: OfferingTables)
    requires Grows(ItemStep(courses, term, r, s).tables, t)
    requires !r.thrown && s.code in courses && SectionKey(s.section).Some?
    ensures ItemStep(courses, term, r.(tables := t), s) == ItemStep(courses, term, r, s).(tables := t)
  {
    var o := Offering(s.code, term, SectionKey(s.section).value);
    ItemStepClosedForm(courses, term, r, s);
    ItemStepClosedForm(courses, term, r.(tables := t), s);
    TablesAbsorb(r.tables, t, o, s.code, LinkedNames(s.instructors));
  }

  /** Tables that already hold an offering and its links are left as they are by inserting them again. */
  lemma TablesAbsorb(before: OfferingTables, t: OfferingTables, o: Offering, code: string, names: seq<string>)
    requires var a := before.(offerings := InsertOffering(before.offerings, o));
      Grows(AddLinks(a, OfferingId(before.offerings, o), code, names), t)
    ensures t.(offerings := InsertOffering(t.offerings, o)) == t
    ensures OfferingId(t.offerings, o) == OfferingId(before.offerings, o)
    ensures AddLinks(t, OfferingId(before.offerings, o), code, names) == t
  {
    var id := OfferingId(before.offerings, o);
    var a := before.(offerings := InsertOffering(before.offerings, o));
    assert AddLinks(a, id, code, names).offerings == a.offerings;
    InsertAbsorbed(before.offerings, t.offerings, o);
    AddLinksAbsorbed(a, t, id, code, names);
  }

  /** An item whose effects are already in the tables changes nothing there, and counts as before. */
  lemma ItemStepAbsorbed(courses: map<string, Course>, term: string, r: Run, s: ScheduleItem, t: OfferingTables)
    requires Grows(ItemStep(courses, term, r, s).tables, t)
    ensures ItemStep(courses, term, r.(tables := t), s) == ItemStep(courses, term, r, s).(tables := t)
  {
    if !r.thrown && s.code in courses && SectionKey(s.section).Some? {
      InsertingStepAbsorbed(courses, term, r, s, t);
    }
  }

  lemma {:induction false} Replay(courses: map<string, Course>, term: string, r: Run, items: seq<ScheduleItem>, t: OfferingTables)
    requires Grows(Schedule(courses, term, r, items).tables, t)
    ensures Schedule(courses, term, r.(tables := t), items) == Schedule(courses, term, r, items).(tables := t)
  {
    if items != [] {
      var init, s := items[..|items| - 1], items[|items| - 1];
      var before := Schedule(courses, term, r, init);
      ItemStepGrows(courses, term, before, s);
      GrowsTransitive(before.tables, ItemStep(courses, term, before, s).tables, t);
      Replay(courses, term, r, init, t);
      ItemStepAbsorbed(courses, term, before, s, t);
    }
  }

  /**
   * Running the import again on the store it produced changes nothing, and reports
   * the same outcome: the same counts (so the instructor links are counted again), or
   * the same exception at the same item.
   */
  lemma ScheduleIdempotent(courses: map<string, Course>, term: string, t: OfferingTables, items: seq<ScheduleItem>)
    ensures var once := Schedule(courses, term, Start(t), items);
      Schedule(courses, term, Start(once.tables), items) == once
  {
    var once := Schedule(courses, term, Start(t), items);
    assert once.tables.offerings[..|once.tables.offerings|] == once.tables.offerings;
    Replay(courses, term, Start(t), items, once.tables);
  }

  /** The items whose course exists, in order. */
  function Known(courses: map<string, Course>, items: seq<ScheduleItem>): seq<ScheduleItem> {
    if items == [] then []
    else if items[|items| - 1].code in courses then Known(courses, items[..|items| - 1]) + [items[|items| - 1]]
    else Known(courses, items[..|items| - 1])
  }

  /** The links the known items make, counted once per non-empty name. */
  function KnownLinks(courses: map<string, Course>, items: seq<ScheduleItem>): nat {
    if items == [] then 0
    else if items[|items| - 1].code in courses then
      KnownLinks(courses, items[..|items| - 1]) + |LinkedNames(items[|items| - 1].instructors)|
    else KnownLinks(courses, items[..|items| - 1])
  }

  /** An item that throws: its course exists, and its section is not a string or an instructor entry is not. */
  predicate Rejected(courses: map<string, Course>, s: ScheduleItem) {
    s.code in courses && (SectionKey(s.section).None? || Throws(s.instructors))
  }

  /** Items whose course is unknown are skipped: the run is that of the known items alone. */
  lemma {:induction false} ScheduleSkipsUnknown(courses: map<string, Course>, term: string, r: Run, items: seq<ScheduleItem>)
    ensures Schedule(courses, term, r, items) == Schedule(courses, term, r, Known(courses, items))
  {
    if items != [] {
      var init, s := items[..|items| - 1], items[|items| - 1];
      ScheduleSkipsUnknown(courses, term, r, init);
      if s.code in courses {
        var ks := Known(courses, init) + [s];
        assert ks[..|ks| - 1] == Known(courses, init);
      }
    }
  }

  /**
   * The run throws exactly when an item is rejected; otherwise it counts one offering
   * per known item (whether or not the offering existed) and one link per non-empty name.
   */
  lemma {:induction false} ScheduleCounts(courses: map<string, Course>, term: string, r: Run, items: seq<ScheduleItem>)
    requires !r.thrown
    ensures var out := Schedule(courses, term, r, items);
      (out.thrown <==> exists k :: 0 <= k < |items| && Rejected(courses, items[k])) &&
      (!out.thrown ==>
        out.offeringCount == r.offeringCount + |Known(courses, items)| &&
        out.instructorLinks == r.instructorLinks + KnownLinks(courses, items))
  {
    if items != [] {
      var init, s := items[..|items| - 1], items[|items| - 1];
      var before := Schedule(courses, term, r, init);
      ScheduleCounts(courses, term, r, init);
      RejectedSnoc(courses, init, s);
      assert items == init + [s];
      if !before.thrown {
        ItemStepCounts(courses, term, before, s);
      }
    }
  }

  /** Some item of `init + [s]` is rejected exactly when one of `init` is or `s` is. */
  lemma RejectedSnoc(courses: map<string, Course>, init: seq<ScheduleItem>, s: ScheduleItem)
    ensures var items := init + [s];
      (exists k :: 0 <= k < |items| && Rejected(courses, items[k])) <==>
      (exists k :: 0 <= k < |init| && Rejected(courses, init[k])) || Rejected(courses, s)
  {
    var items := init + [s];
    assert items[|init|] == s;
    if exists k :: 0 <= k < |items| && Rejected(courses, items[k]) {
      var k :| 0 <= k < |items| && Rejected(courses, items[k]);
      if k < |init| {
        assert init[k] == items[k];
      }
    }
    if exists k :: 0 <= k < |init| && Rejected(courses, init[k]) {
      var k :| 0 <= k < |init| && Rejected(courses, init[k]);
      assert items[k] == init[k];
    }
  }

  /** One item throws exactly when it is rejected, and otherwise counts its offering and its names when its course is known. */
  lemma ItemStepCounts(courses: map<string, Course>, term: string, r: Run, s: ScheduleItem)
    requires !r.thrown
    ensures var out := ItemStep(courses, term, r, s);
      (out.thrown <==> Rejected(courses, s)) &&
      (!out.thrown ==>
        out.offeringCount == r.offeringCount + (if s.code in courses then 1 else 0) &&
        out.instructorLinks == r.instructorLinks + (if s.code in courses then |LinkedNames(s.instructors)| else 0))
  {
    if s.code in courses && SectionKey(s.section).Some? {
      ItemStepClosedForm(courses, term, r, s);
    }
  }

  /** The store's tables hang together: no duplicate offerings, and links name existing rows. */
  predicate Consistent(courses: map<string, Course>, t: OfferingTables) {
    NoDuplicates(t.offerings) &&
    (forall k :: 0 <= k < |t.offerings| ==> t.offerings[k].course in courses) &&
    (forall p :: p in t.offeringLinks ==> p.0 < |t.offerings| && p.1 in t.instructors) &&
    (forall p :: p in t.courseLinks ==> p.0 in courses && p.1 in t.instructors)
  }

  lemma ItemStepConsistent(courses: map<string, Course>, term: string, r: Run, s: ScheduleItem)
    requires Consistent(courses, r.tables)
    ensures Consistent(courses, ItemStep(courses, term, r, s).tables)
  {
    if !r.thrown && s.code in courses && SectionKey(s.section).Some? {
      ItemStepClosedForm(courses, term, r, s);
      UpsertConsistent(courses, r.tables, Offering(s.code, term, SectionKey(s.section).value), LinkedNames(s.instructors));
    }
  }

  /** Upserting an offering of an existing course and linking names to it keeps the tables consistent. */
  lemma UpsertConsistent(courses: map<string, Course>, t: OfferingTables, o: Offering, names: seq<string>)
    requires Consistent(courses, t) && o.course in courses
    ensures Consistent(courses, AddLinks(t.(offerings := InsertOffering(t.offerings, o)), OfferingId(t.offerings, o), o.course, names))
  {
    var offs := InsertOffering(t.offerings, o);
    assert forall k :: 0 <= k < |t.offerings| ==> offs[k] == t.offerings[k];
  }

  /** The run keeps the tables consistent. */
  lemma {:induction false} ScheduleConsistent(courses: map<string, Course>, term: string, r: Run, items: seq<ScheduleItem>)
    requires Consistent(courses, r.tables)
    ensures Consistent(courses, Schedule(courses, term, r, items).tables)
  {
    if items != [] {
      ScheduleConsistent(courses, term, r, items[..|items| - 1]);
      ItemStepConsistent(courses, term, Schedule(courses, term, r, items[..|items| - 1]), items[|items| - 1]);
    }
  }

  /** The links of one name on one offering, as `upsertSchedule` writes them. */
  predicate HasLinks(t: OfferingTables, o: Offering, code: string, n: string) {
    o in t.offerings && n in t.instructors &&
    (OfferingId(t.offerings, o), n) in t.offeringLinks && (code, n) in t.courseLinks
  }

  lemma HasLinksKept(a: OfferingTables, b: OfferingTables, o: Offering, code: string, n: string)
    requires Grows(a, b) && HasLinks(a, o, code, n)
    ensures HasLinks(b, o, code, n)
  {
    assert b.offerings[OfferingId(a.offerings, o)] == o;
    OfferingIdStable(a.offerings, b.offerings, o);
  }

  lemma ItemStepLinks(courses: map<string, Course>, term: string, r: Run, s: ScheduleItem, n: string)
    requires !r.thrown && s.code in courses && !ItemStep(courses, term, r, s).thrown
    requires n in LinkedNames(s.instructors)
    ensures SectionKey(s.section).Some?
    ensures HasLinks(ItemStep(courses, term, r, s).tables, Offering(s.code, term, SectionKey(s.section).value), s.code, n)
  {
    ItemStepClosedForm(courses, term, r, s);
  }

  lemma ScheduleNotThrownBefore(courses: map<string, Course>, term: string, r: Run, items: seq<ScheduleItem>, k: nat)
    requires k <= |items| && !Schedule(courses, term, r, items).thrown
    ensures !Schedule(courses, term, r, items[..k]).thrown
    ensures Schedule(courses, term, r, items) == Schedule(courses, term, Schedule(courses, term, r, items[..k]), items[k..])
  {
    assert items == items[..k] + items[k..];
    ScheduleAppend(courses, term, r, items[..k], items[k..]);
    if Schedule(courses, term, r, items[..k]).thrown {
      ScheduleThrownSticks(courses, term, Schedule(courses, term, r, items[..k]), items[k..]);
    }
  }

  /**
   * After a run without exception, every known item has its offering, and each of its
   * trimmed non-empty instructor names is an instructor linked to that offering and to
   * the course.
   */
  lemma EveryNameLinked(courses: map<string, Course>, term: string, t: OfferingTables, items: seq<ScheduleItem>, k: nat, n: string)
    requires k < |items| && items[k].code in courses
    requires !Schedule(courses, term, Start(t), items).thrown
    requires n in LinkedNames(items[k].instructors)
    ensures SectionKey(items[k].section).Some?
    ensures HasLinks(Schedule(courses, term, Start(t), items).tables,
      Offering(items[k].code, term, SectionKey(items[k].section).value), items[k].code, n)
  {
    var before := Schedule(courses, term, Start(t), items[..k]);
    var after := Schedule(courses, term, Start(t), items[..k + 1]);
    ScheduleStep(courses, term, Start(t), items, k);
    ScheduleNotThrownBefore(courses, term, Start(t), items, k);
    ScheduleNotThrownBefore(courses, term, Start(t), items, k + 1);
    ItemStepLinks(courses, term, before, items[k], n);
    ScheduleGrows(courses, term, after, items[k + 1..]);
    HasLinksKept(after.tables, Schedule(courses, term, Start(t), items).tables,
      Offering(items[k].code, term, SectionKey(items[k].section).value), items[k].code, n);
  }

  // ---------------------------------------------------------------------------
  // The offering upsert as written

  /** An offering row as the code writes it: the section may be `null`. */
  datatype StoredOffering = StoredOffering(course: string, term: string, section: Option<string>)

  /**
   * The offering upsert as written: the row is looked up with `section: s.section || ''`
   * but created with `section: s.section || null`, and `null` never equals `''`.
   */
  function AsWrittenUpsert(rows: seq<StoredOffering>, code: string, term: string, section: Value): seq<StoredOffering>
    requires SectionKey(section).Some?
  {
    if StoredOffering(code, term, Some(SectionKey(section).value)) in rows then rows
    else rows + [StoredOffering(code, term, if Truthy(section) then Some(section.s) else None)]
  }

  /** As written, an offering without a section is never found again, so every run adds another row. */
  lemma AsWrittenSectionlessAlwaysInserts(rows: seq<StoredOffering>, code: string, term: string, section: Value)
    requires !Truthy(section)
    requires forall k :: 0 <= k < |rows| ==> rows[k].section != Some("")
    ensures AsWrittenUpsert(rows, code, term, section) == rows + [StoredOffering(code, term, None)]
  {
  }

  /** The smallest case: importing a sectionless item twice leaves two identical offering rows. */
  lemma AsWrittenRerunDuplicates(code: string, term: string)
    ensures var once := AsWrittenUpsert([], code, term, Undefined);
      AsWrittenUpsert(once, code, term, Undefined) == [StoredOffering(code, term, None), StoredOffering(code, term, None)]
  {
    AsWrittenSectionlessAlwaysInserts([], code, term, Undefined);
    AsWrittenSectionlessAlwaysInserts([StoredOffering(code, term, None)], code, term, Undefined);
  }
}
