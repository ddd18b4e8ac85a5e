/**
 * The Jasmine food court: the hours tables and their weekday key, the
 * per-stall flatten-and-dedupe of a day's records, and the stall loop of
 * `main` with its Curry Kitchen and "nothing fetched means Closed" rules.
 */
module Jasmine {
  import opened Wrappers
  import opened Ascii
  import opened Dedupe
  import opened Dicts
  import opened MenuRecords
  import opened RecordScan

  /** `date.weekday()`: Monday is 0, Sunday is 6. */
  type Weekday = x: int | 0 <= x <= 6

  const Closed := "Closed"

  const JasmineHours: Dict<string, string> :=
    [("mon_thu", "11am to 8pm"), ("fri", "11am to 8pm"), ("sat", "12pm to 7pm"), ("sun", "12pm to 7pm")]

  const CurryHours: Dict<string, string> :=
    [("mon_thu", "11am to 8pm"), ("fri", "11am to 8pm"), ("sat", Closed), ("sun", Closed)]

  /** `weekday_key`. */
  function WeekdayKey(wd: Weekday): string {
    if wd <= 3 then "mon_thu"
    else if wd == 4 then "fri"
    else if wd == 5 then "sat"
    else "sun"
  }

  /** Monday to Thursday share a key; Friday, Saturday and Sunday have their own; both tables have every key. */
  lemma WeekdayKeySpec(wd: Weekday)
    ensures WeekdayKey(wd) == "mon_thu" <==> wd <= 3
    ensures WeekdayKey(wd) == "fri" <==> wd == 4
    ensures WeekdayKey(wd) == "sat" <==> wd == 5
    ensures WeekdayKey(wd) == "sun" <==> wd == 6
    ensures WeekdayKey(wd) in Keys(JasmineHours) && WeekdayKey(wd) in Keys(CurryHours)
  {
    assert Keys(JasmineHours) == ["mon_thu", "fri", "sat", "sun"];
    assert Keys(CurryHours) == ["mon_thu", "fri", "sat", "sun"];
  }

  /** `stall_name.strip().lower() == "curry kitchen"`. */
  predicate IsCurryKitchen(name: string) {
    Lower(Strip(name)) == "curry kitchen"
  }

  /** `stall_hours_today`; `None` where the table lookup would raise. */
  function StallHoursToday(name: string, key: string): Option<string> {
    if IsCurryKitchen(name) then Get(CurryHours, key) else Get(JasmineHours, key)
  }

  /**
   * For a key from `weekday_key` the lookup never fails; Curry Kitchen is
   * closed exactly on Saturday and Sunday, every other stall is never closed
   * and has the Jasmine hours.
   */
  lemma StallHoursTodaySpec(name: string, wd: Weekday)
    ensures StallHoursToday(name, WeekdayKey(wd)).Some?
    ensures IsCurryKitchen(name) ==> (StallHoursToday(name, WeekdayKey(wd)) == Some(Closed) <==> wd >= 5)
    ensures !IsCurryKitchen(name) ==> StallHoursToday(name, WeekdayKey(wd)) == Get(JasmineHours, WeekdayKey(wd))
    ensures !IsCurryKitchen(name) ==> StallHoursToday(name, WeekdayKey(wd)) != Some(Closed)
  {
    TableLookups();
  }

  /** The two tables, read key by key. */
  lemma TableLookups()
    ensures Get(JasmineHours, "mon_thu") == Some("11am to 8pm") && Get(JasmineHours, "fri") == Some("11am to 8pm")
    ensures Get(JasmineHours, "sat") == Some("12pm to 7pm") && Get(JasmineHours, "sun") == Some("12pm to 7pm")
    ensures Get(CurryHours, "mon_thu") == Some("11am to 8pm") && Get(CurryHours, "fri") == Some("11am to 8pm")
    ensures Get(CurryHours, "sat") == Some(Closed) && Get(CurryHours, "sun") == Some(Closed)
  {
    assert JasmineHours[1..][1..] == [("sat", "12pm to 7pm"), ("sun", "12pm to 7pm")];
    assert JasmineHours[1..][1..][1..] == [("sun", "12pm to 7pm")];
    assert CurryHours[1..][1..] == [("sat", Closed), ("sun", Closed)];
    assert CurryHours[1..][1..][1..] == [("sun", Closed)];
    assert Get(CurryHours, "sat") == Get(CurryHours[1..][1..], "sat");
    assert Get(CurryHours, "sun") == Get(CurryHours[1..], "sun");
    assert Get(CurryHours[1..], "sun") == Get(CurryHours[1..][1..], "sun");
    assert Get(CurryHours[1..][1..], "sun") == Get(CurryHours[1..][1..][1..], "sun");
  }

  /** The table hours of a stall on a weekday. */
  function HoursFor(name: string, wd: Weekday): string {
    StallHoursTodaySpec(name, wd);
    StallHoursToday(name, WeekdayKey(wd)).value
  }

  /** The food court's own hours, `JASMINE_HOURS[today_key]`. */
  function JasmineHoursToday(wd: Weekday): string {
    WeekdayKeySpec(wd);
    GetSome(JasmineHours, WeekdayKey(wd));
    Get(JasmineHours, WeekdayKey(wd)).value
  }

  /** The `setdefault(sec, []).append(name)` calls of the scan, one per entry. */
  function SectionLists(es: seq<Entry>): (ps: seq<(string, seq<string>)>)
    ensures |ps| == |es| && forall i :: 0 <= i < |es| ==> ps[i] == (es[i].section, [es[i].name])
  {
    seq(|es|, i requires 0 <= i < |es| => (es[i].section, [es[i].name]))
  }

  /** `fetch_flat_items` on a day's records. */
  function FlatItems(records: seq<MenuRecord>): seq<string> {
    Deduped(Flatten(Grouped(SectionLists(ScanAll(records).entries))))
  }

  /** The names of the sections `ss`, section by section. */
  function JoinedNames(es: seq<Entry>, ss: seq<string>): seq<string> {
    if ss == [] then [] else NamesIn(es, ss[0]) + JoinedNames(es, ss[1..])
  }

  /** The scan of `fetch_flat_items`, its `section_map`, the flattening loop and the dedupe. */
  method FetchFlatItems(menuItems: seq<MenuRecord>) returns (items: seq<string>)
    ensures items == FlatItems(menuItems)
  {
    var sectionMap: Dict<string, seq<string>> := [];
    var current: Option<string> := None;
    for i := 0 to |menuItems|
      invariant current == ScanAll(menuItems[..i]).current
      invariant sectionMap == Grouped(SectionLists(ScanAll(menuItems[..i]).entries))
    {
      ScanAllSnoc(menuItems, i);
      var mi := menuItems[i];
      var header := DetectHeaderText(mi);
      if Truthy(header) {
        current := header;
        continue;
      }
      var name := SafeFoodName(mi);
      if !Truthy(name) {
        continue;
      }
      var sec := SectionIn(mi, current);
      ghost var es := ScanAll(menuItems[..i]).entries;
      assert Classify(mi) == FoodRecord(name.value, PickSectionName(mi));
      assert ScanAll(menuItems[..i + 1]).entries == es + [Entry(sec, name.value)];
      assert SectionLists(es + [Entry(sec, name.value)])[..|es|] == SectionLists(es);
      sectionMap := Extend(sectionMap, sec, [name.value]);
    }
    assert menuItems[..|menuItems|] == menuItems;
    var flat: seq<string> := [];
    for j := 0 to |sectionMap|
      invariant flat + Flatten(sectionMap[j..]) == Flatten(sectionMap)
    {
      assert sectionMap[j..][1..] == sectionMap[j + 1..];
      flat := flat + sectionMap[j].1;
    }
    assert sectionMap[|sectionMap|..] == [];
    assert flat == Flatten(sectionMap);
    assert sectionMap == Grouped(SectionLists(ScanAll(menuItems).entries));
    items := DedupePreserveOrder(flat);
  }

  lemma {:induction false} ConcatForSectionLists(es: seq<Entry>, k: string)
    ensures ConcatFor(SectionLists(es), k) == NamesIn(es, k)
  {
    if es != [] {
      var n := |es| - 1;
      assert SectionLists(es)[..n] == SectionLists(es[..n]);
      ConcatForSectionLists(es[..n], k);
    }
  }

  lemma {:induction false} FlattenIsJoined(d: Dict<string, seq<string>>, es: seq<Entry>)
    requires forall i :: 0 <= i < |d| ==> d[i].1 == NamesIn(es, d[i].0)
    ensures Flatten(d) == JoinedNames(es, Keys(d))
  {
    if d != [] {
      FlattenIsJoined(d[1..], es);
      assert Keys(d) == [d[0].0] + Keys(d[1..]);
    }
  }

  lemma {:induction false} NamesInMembers(es: seq<Entry>, s: string, x: string)
    ensures x in NamesIn(es, s) <==> exists e :: e in es && e.section == s && e.name == x
  {
    if es != [] {
      var n := |es| - 1;
      NamesInMembers(es[..n], s, x);
      assert es == es[..n] + [es[n]];
    }
  }

  lemma {:induction false} JoinedMembers(es: seq<Entry>, ss: seq<string>, x: string)
    ensures x in JoinedNames(es, ss) <==> exists s :: s in ss && x in NamesIn(es, s)
  {
    if ss != [] {
      JoinedMembers(es, ss[1..], x);
      if s :| s in ss && x in NamesIn(es, s) {
        if s != ss[0] {
          assert s in ss[1..];
        }
      }
      if x in JoinedNames(es, ss[1..]) {
        var s :| s in ss[1..] && x in NamesIn(es, s);
        assert s in ss;
      }
    }
  }

  /**
   * The flat list has no repeats; it is the food names grouped by section,
   * sections in order of first appearance, deduplicated; and it holds exactly
   * the food names of the records that are not headers.
   */
  lemma FlatItemsSpec(records: seq<MenuRecord>)
    ensures NoDup(FlatItems(records))
    ensures FlatItems(records) ==
      Deduped(JoinedNames(ScanAll(records).entries, Deduped(SectionsOf(ScanAll(records).entries))))
    ensures forall x :: x in FlatItems(records) <==>
      exists i :: 0 <= i < |records| && DetectHeaderText(records[i]).None? && SafeFoodName(records[i]) == Some(x)
  {
    var es := ScanAll(records).entries;
    var ps := SectionLists(es);
    var g := Grouped(ps);
    DedupedNoDup(Flatten(g));
    GroupedKeys(ps);
    assert Firsts(ps) == SectionsOf(es);
    forall i | 0 <= i < |g| ensures g[i].1 == NamesIn(es, g[i].0) {
      GetAt(g, i);
      GroupedGet(ps, g[i].0);
      ConcatForSectionLists(es, g[i].0);
    }
    FlattenIsJoined(g, es);
    forall x ensures x in FlatItems(records) <==>
      exists i :: 0 <= i < |records| && DetectHeaderText(records[i]).None? && SafeFoodName(records[i]) == Some(x)
    {
      FlatMember(records, x);
    }
  }

  lemma FlatMember(records: seq<MenuRecord>, x: string)
    ensures x in FlatItems(records) <==>
      exists i :: 0 <= i < |records| && DetectHeaderText(records[i]).None? && SafeFoodName(records[i]) == Some(x)
  {
    var es := ScanAll(records).entries;
    var ss := Deduped(SectionsOf(es));
    var ks := KindsOf(records);
    FlatItemsGrouping(records);
    DedupedMembers(JoinedNames(es, ss), x);
    JoinedMembers(es, ss, x);
    EntryNames(ks, x);
    if e :| e in es && e.name == x {
      NamesInMembers(es, e.section, x);
      DedupedMembers(SectionsOf(es), e.section);
      var k :| 0 <= k < |es| && es[k] == e;
      assert SectionsOf(es)[k] == e.section;
    }
    if s :| s in ss && x in NamesIn(es, s) {
      NamesInMembers(es, s, x);
    }
    forall i | 0 <= i < |records| ensures
      (ks[i].FoodRecord? && ks[i].name == x) <==> (DetectHeaderText(records[i]).None? && SafeFoodName(records[i]) == Some(x))
    {
      ClassifySpec(records[i]);
    }
  }

  lemma FlatItemsGrouping(records: seq<MenuRecord>)
    ensures FlatItems(records) ==
      Deduped(JoinedNames(ScanAll(records).entries, Deduped(SectionsOf(ScanAll(records).entries))))
  {
    var es := ScanAll(records).entries;
    var ps := SectionLists(es);
    var g := Grouped(ps);
    GroupedKeys(ps);
    assert Firsts(ps) == SectionsOf(es);
    forall i | 0 <= i < |g| ensures g[i].1 == NamesIn(es, g[i].0) {
      GetAt(g, i);
      GroupedGet(ps, g[i].0);
      ConcatForSectionLists(es, g[i].0);
    }
    FlattenIsJoined(g, es);
  }

  /** A configured stall; `daily` picks today's date or the fixed one for the fetch. */
  datatype Stall = Stall(name: string, slug: string, daily: bool)

  const Stalls := [
    Stall("Cafetasia Chinese", "cafetasia-chinese", false),
    Stall("Curry Kitchen", "curry-kitchen", true),
    Stall("Cafetasia Korean", "cafetasia-korean", false),
    Stall("Sushido", "sushido", false)
  ]

  /** One entry of `out["sections"]`. */
  datatype StallSection = StallSection(section: string, hoursToday: string, items: seq<string>)

  /** The output document (its clock-derived fields aside). */
  datatype JasmineMenu = JasmineMenu(hoursToday: string, sections: seq<StallSection>)

  /**
   * What the request for a stall's menu on its fetch date gives: the
   * `menu_items` of the matching day (`[]` when the day is missing or empty),
   * or `None` when the request or its decoding raises.
   */
  type Fetch = Stall -> Option<seq<MenuRecord>>

  /** `fetch_flat_items(slug, fetch_date)`, with `[]` for the `except Exception` branch. */
  function Fetched(s: Stall, fetch: Fetch): seq<string> {
    match fetch(s)
    case None => []
    case Some(records) => FlatItems(records)
  }

  /** One stall of the loop. */
  function StallEntry(s: Stall, wd: Weekday, fetch: Fetch): StallSection {
    var h := HoursFor(s.name, wd);
    var items := if IsCurryKitchen(s.name) && h == Closed then [] else Fetched(s, fetch);
    StallSection(s.name, if items == [] then Closed else h, items)
  }

  /** `f` applied to each stall, in order; the loop builds this list. */
  function MapStalls(ss: seq<Stall>, f: Stall -> StallSection): (r: seq<StallSection>)
    ensures |r| == |ss| && forall i :: 0 <= i < |ss| ==> r[i] == f(ss[i])
  {
    if ss == [] then [] else MapStalls(ss[..|ss| - 1], f) + [f(ss[|ss| - 1])]
  }

  /** The sections of the stalls `ss`, in order. */
  function StallEntries(ss: seq<Stall>, wd: Weekday, fetch: Fetch): seq<StallSection> {
    MapStalls(ss, s => StallEntry(s, wd, fetch))
  }

  function JasmineOutput(wd: Weekday, fetch: Fetch): JasmineMenu {
    JasmineMenu(JasmineHoursToday(wd), StallEntries(Stalls, wd, fetch))
  }

  /** `main` without the clock and the file. */
  method BuildJasmineMenu(wd: Weekday, fetch: Fetch) returns (out: JasmineMenu)
    ensures out == JasmineOutput(wd, fetch)
  {
    var key := WeekdayKey(wd);
    WeekdayKeySpec(wd);
    GetSome(JasmineHours, key);
    var sections := BuildSections(Stalls, wd, fetch);
    out := JasmineMenu(Get(JasmineHours, key).value, sections);
  }

  /** The loop over the stalls appending one section each to `out["sections"]`. */
  method BuildSections(stalls: seq<Stall>, wd: Weekday, fetch: Fetch) returns (sections: seq<StallSection>)
    ensures sections == StallEntries(stalls, wd, fetch)
  {
    sections := [];
    for i := 0 to |stalls|
      invariant sections == StallEntries(stalls[..i], wd, fetch)
    {
      var section := BuildStallSection(stalls[i], wd, fetch);
      ghost var f := s => StallEntry(s, wd, fetch);
      assert section == f(stalls[i]);
      assert stalls[..i + 1][..i] == stalls[..i];
      sections := sections + [section];
    }
    assert stalls[..|stalls|] == stalls;
  }

  /** One iteration of the stall loop. */
  method BuildStallSection(s: Stall, wd: Weekday, fetch: Fetch) returns (section: StallSection)
    ensures section == StallEntry(s, wd, fetch)
  {
    StallHoursTodaySpec(s.name, wd);
    var h := StallHoursToday(s.name, WeekdayKey(wd)).value;
    var items;
    if IsCurryKitchen(s.name) && h == Closed {
      items := [];
    } else {
      match fetch(s)
      case None =>
        items := [];
      case Some(records) =>
        items := FetchFlatItems(records);
    }
    if items == [] {
      h := Closed;
    }
    section := StallSection(s.name, h, items);
  }

  /**
   * A stall with nothing to show is listed as Closed; Curry Kitchen on its
   * closed days is listed Closed with no items whatever the fetch would give;
   * any other stall shows exactly the flattened food names of what was
   * fetched, under its table hours when that is not empty. The items never
   * repeat and each is the food name of a non-header record of the fetched day.
   */
  lemma StallEntrySpec(s: Stall, wd: Weekday, fetch: Fetch)
    ensures StallEntry(s, wd, fetch).section == s.name
    ensures StallEntry(s, wd, fetch).items == [] ==> StallEntry(s, wd, fetch).hoursToday == Closed
    ensures IsCurryKitchen(s.name) && wd >= 5 ==>
      StallEntry(s, wd, fetch) == StallSection(s.name, Closed, [])
    ensures !(IsCurryKitchen(s.name) && wd >= 5) ==> StallEntry(s, wd, fetch).items == Fetched(s, fetch)
    ensures fetch(s).None? ==> StallEntry(s, wd, fetch) == StallSection(s.name, Closed, [])
    ensures StallEntry(s, wd, fetch).items != [] ==>
      StallEntry(s, wd, fetch).hoursToday == HoursFor(s.name, wd)
    ensures NoDup(StallEntry(s, wd, fetch).items)
    ensures forall x :: x in StallEntry(s, wd, fetch).items ==> (
      fetch(s).Some? &&
      exists i :: 0 <= i < |fetch(s).value| && DetectHeaderText(fetch(s).value[i]).None?
        && SafeFoodName(fetch(s).value[i]) == Some(x))
  {
    StallHoursTodaySpec(s.name, wd);
    if fetch(s).Some? {
      FlatItemsSpec(fetch(s).value);
    }
  }

  /** The output lists the four stalls in their configured order, with Jasmine's own hours. */
  lemma JasmineOutputSpec(wd: Weekday, fetch: Fetch)
    ensures |JasmineOutput(wd, fetch).sections| == |Stalls|
    ensures forall i :: 0 <= i < |Stalls| ==> JasmineOutput(wd, fetch).sections[i].section == Stalls[i].name
    ensures JasmineOutput(wd, fetch).hoursToday == (if wd >= 5 then "12pm to 7pm" else "11am to 8pm")
  {
    JasmineHoursTodaySpec(wd);
    forall i | 0 <= i < |Stalls| ensures JasmineOutput(wd, fetch).sections[i].section == Stalls[i].name {
      StallEntrySpec(Stalls[i], wd, fetch);
    }
  }

  lemma JasmineHoursTodaySpec(wd: Weekday)
    ensures JasmineHoursToday(wd) == (if wd >= 5 then "12pm to 7pm" else "11am to 8pm")
  {
    WeekdayKeySpec(wd);
    TableLookups();
  }

  /** Of the configured stalls only the second is Curry Kitchen. */
  lemma CurryStall()
    ensures IsCurryKitchen(Stalls[1].name) && !IsCurryKitchen(Stalls[0].name)
    ensures !IsCurryKitchen(Stalls[2].name) && !IsCurryKitchen(Stalls[3].name)
  {
    CurryName();
  }

  lemma CurryName()
    ensures IsCurryKitchen("Curry Kitchen") && !IsCurryKitchen("Cafetasia Chinese")
    ensures !IsCurryKitchen("Cafetasia Korean") && !IsCurryKitchen("Sushido")
  {
    assert Strip("Curry Kitchen") == "Curry Kitchen";
    assert Strip("Cafetasia Chinese") == "Cafetasia Chinese";
    assert Strip("Cafetasia Korean") == "Cafetasia Korean";
    assert Strip("Sushido") == "Sushido";
  }
}
