/**
 * The east/west day pipeline: the record scan that fills `meals_map` through
 * `add_name`, and the choice of output shape (weekday: four meals; weekend:
 * the five-meal intermediate merged into brunch and dinner).
 */
module DiningMenu {
  import opened Wrappers
  import opened Dedupe
  import opened Dicts
  import opened MenuRecords
  import opened MealClassifier
  import opened RecordScan
  import opened Accumulator
  import opened SectionSort
  import opened Materialize
  import opened WeekendMerge

  const WeekdayOrder := [Breakfast, Lunch, Dinner, LateNight]
  const WeekendOrder := [Breakfast, Lunch, Dinner, LateNight, Brunch]

  /**
   * The scan over one day's records: headers set `current_section`, records
   * without a food name are skipped, every other record is filed by `add_name`
   * under its resolved section, once per meal the classifier gives.
   */
  method ScanMenuItems(records: seq<MenuRecord>, isWeekend: bool) returns (meals: MealsDict)
    ensures meals == Accumulated(ScanAll(records).entries, isWeekend)
  {
    var mm := new MealsMap();
    var current: Option<string> := None;
    for i := 0 to |records|
      invariant current == ScanAll(records[..i]).current
      invariant mm.entries == Accumulated(ScanAll(records[..i]).entries, isWeekend)
    {
      ScanAllSnoc(records, i);
      var mi := records[i];
      var header := DetectHeaderText(mi);
      if Truthy(header) {
        current := header;
        continue;
      }
      var food := SafeFoodName(mi);
      if !Truthy(food) {
        continue;
      }
      var section := PickSectionName(mi);
      if section == OtherSection && Truthy(current) {
        section := current.value;
      }
      ghost var es := ScanAll(records[..i]).entries;
      assert Classify(mi) == FoodRecord(food.value, PickSectionName(mi));
      assert ScanAll(records[..i + 1]).entries == es + [Entry(section, food.value)];
      assert (es + [Entry(section, food.value)])[..|es|] == es;
      FileFood(mm, section, food.value, isWeekend);
    }
    assert records[..|records|] == records;
    meals := mm.entries;
  }

  /** The tail of one iteration: the pizza/pasta fan-out, or the keyword meal. */
  method FileFood(mm: MealsMap, section: string, food: string, isWeekend: bool)
    modifies mm
    ensures mm.entries == AddedToAll(old(mm.entries), MealsFor(section, isWeekend), section, food)
  {
    if IsPizzaOrPastaSection(section) {
      if isWeekend {
        mm.AddName(Brunch, section, food);
        mm.AddName(Dinner, section, food);
        assert [Brunch, Dinner][1..] == [Dinner];
      } else {
        mm.AddName(Lunch, section, food);
        mm.AddName(Dinner, section, food);
        mm.AddName(LateNight, section, food);
        assert [Lunch, Dinner, LateNight][1..] == [Dinner, LateNight];
        assert [Dinner, LateNight][1..] == [LateNight];
      }
      return;
    }
    var meal := GuessMealFromSection(section);
    mm.AddName(meal, section, food);
  }

  /** The meals part of the day's output for a filled `meals_map`. */
  function DayMeals(m: MealsDict, isWeekend: bool): MealDocument {
    if isWeekend then WeekendMerged(Materialized(m, WeekendOrder)) else Materialized(m, WeekdayOrder)
  }

  /** The `if is_weekend` choice between the merged and the plain output. */
  method BuildMeals(m: MealsDict, isWeekend: bool) returns (out: MealDocument)
    ensures out == DayMeals(m, isWeekend)
  {
    if isWeekend {
      var base := MealsMapToOutput(m, WeekendOrder);
      out := WeekendMergeBrunchDinner(base);
    } else {
      out := MealsMapToOutput(m, WeekdayOrder);
    }
  }

  /** The whole engine: records in, meals out. */
  function DayMenu(records: seq<MenuRecord>, isWeekend: bool): MealDocument {
    DayMeals(Accumulated(ScanAll(records).entries, isWeekend), isWeekend)
  }

  /**
   * The weekday output has exactly the four meals, the weekend output exactly
   * brunch and dinner, under the JSON keys the scripts write.
   */
  lemma DayMealsKeys(m: MealsDict, isWeekend: bool)
    ensures !isWeekend ==> Keys(DayMeals(m, isWeekend)) == WeekdayOrder
    ensures isWeekend ==> Keys(DayMeals(m, isWeekend)) == [Brunch, Dinner]
    ensures !isWeekend ==> KeyNames(Keys(DayMeals(m, isWeekend))) == ["breakfast", "lunch", "dinner", "late_night"]
    ensures isWeekend ==> KeyNames(Keys(DayMeals(m, isWeekend))) == ["brunch", "dinner"]
  {
    if isWeekend {
      WeekendMergedSpec(Materialized(m, WeekendOrder));
    } else {
      MaterializedKeys(m, WeekdayOrder, Breakfast);
      DedupedOfNoDup(WeekdayOrder);
    }
  }

  /**
   * On a weekday, each block of a meal is a section the classifier sends to
   * that meal, holding exactly the names of that section's entries in scan
   * order, deduplicated (and so never empty); conversely every entry appears,
   * under its own section, in each meal its section is sent to.
   */
  lemma WeekdayBlocks(records: seq<MenuRecord>, meal: Meal, b: Block)
    requires meal in WeekdayOrder
    requires b in GetOr(DayMenu(records, false), meal, [])
    ensures meal in MealsFor(b.section, false)
    ensures b.items == Deduped(NamesIn(ScanAll(records).entries, b.section)) && b.items != []
  {
    var es := ScanAll(records).entries;
    var m := Accumulated(es, false);
    MaterializedKeys(m, WeekdayOrder, meal);
    MealBlocksSpec(m, meal);
    AccumulatedDistinct(es, false);
    AccumulatedNames(es, false, meal, b.section);
    AccumulatedKeys(es, false, meal, b.section);
    var e :| e in es && e.section == b.section;
    NamesInHas(es, e);
    DedupedMembers(NamesIn(es, b.section), e.name);
  }

  lemma WeekdayEntryListed(records: seq<MenuRecord>, meal: Meal, e: Entry)
    requires meal in WeekdayOrder
    requires e in ScanAll(records).entries && meal in MealsFor(e.section, false)
    ensures exists b :: b in GetOr(DayMenu(records, false), meal, []) && b.section == e.section && e.name in b.items
  {
    var m := Accumulated(ScanAll(records).entries, false);
    MaterializedKeys(m, WeekdayOrder, meal);
    EntryInMealBlocks(ScanAll(records).entries, false, meal, e);
  }

  /** An entry's name is among the blocks of each meal its section is sent to. */
  lemma EntryInMealBlocks(es: seq<Entry>, isWeekend: bool, meal: Meal, e: Entry)
    requires e in es && meal in MealsFor(e.section, isWeekend)
    ensures exists b :: b in MealBlocks(Accumulated(es, isWeekend), meal) && b.section == e.section && e.name in b.items
  {
    var m := Accumulated(es, isWeekend);
    var sections := GetOr(m, meal, []);
    MealBlocksSpec(m, meal);
    AccumulatedDistinct(es, isWeekend);
    AccumulatedNames(es, isWeekend, meal, e.section);
    AccumulatedKeys(es, isWeekend, meal, e.section);
    var k :| 0 <= k < |sections| && Keys(sections)[k] == e.section;
    GetAt(sections, k);
    NamesInHas(es, e);
    DedupedMembers(sections[k].1, e.name);
    var b := BlocksOf(sections)[k];
    assert b in multiset(MealBlocks(m, meal));
  }

  /** The weekend meal a five-meal bucket is merged into. */
  function WeekendMeal(meal: Meal): Meal {
    if meal == Breakfast || meal == Lunch || meal == Brunch then Brunch else Dinner
  }

  /** The weekend section a block of a five-meal bucket is merged under. */
  function WeekendSection(meal: Meal, b: Block): string {
    if meal == LateNight then RenamedSection(b) else MergeSection(b)
  }

  /**
   * On a weekend every food of the scan is listed, for each meal its section
   * is sent to, in the weekend meal that bucket is merged into (brunch for
   * breakfast, lunch and brunch; dinner for dinner and late night), under its
   * own section, except that late night's "Late Night Specials" is listed
   * under "Grill Dinner Specials".
   */
  lemma WeekendEntryListed(records: seq<MenuRecord>, e: Entry)
    requires e in ScanAll(records).entries
    ensures forall meal :: meal in MealsFor(e.section, true) ==> exists b :: (
      b in GetOr(DayMenu(records, true), WeekendMeal(meal), []) && e.name in b.items
      && b.section == (if meal == LateNight && e.section == LateNightSourceSection then LateNightTargetSection else e.section))
  {
    var es := ScanAll(records).entries;
    var base := Materialized(Accumulated(es, true), WeekendOrder);
    assert DayMenu(records, true) == WeekendMerged(base);
    ScanAllEntriesNonEmpty(records);
    WeekendLookup(base);
    forall meal | meal in MealsFor(e.section, true)
      ensures exists b :: (
        b in GetOr(DayMenu(records, true), WeekendMeal(meal), []) && e.name in b.items
        && b.section == (if meal == LateNight && e.section == LateNightSourceSection then LateNightTargetSection else e.section))
    {
      var blk := WeekendBaseListed(es, e, meal);
      WeekendKeepsNames(base, meal, blk, e.name);
    }
  }

  lemma WeekendLookup(base: MealDocument)
    ensures GetOr(WeekendMerged(base), Brunch, []) == WeekendMerged(base)[0].1
    ensures GetOr(WeekendMerged(base), Dinner, []) == WeekendMerged(base)[1].1
  {
    var out := WeekendMerged(base);
    assert out[0].0 == Brunch && out[0].0 != Dinner;
    assert Get(out, Dinner) == Get(out[1..], Dinner);
    assert out[1..][0] == (Dinner, out[1].1);
  }

  /** The block of the five-meal document that holds an entry's name, in each meal its section goes to. */
  lemma WeekendBaseListed(es: seq<Entry>, e: Entry, meal: Meal) returns (blk: Block)
    requires e in es && meal in MealsFor(e.section, true)
    ensures blk in GetOr(Materialized(Accumulated(es, true), WeekendOrder), meal, [])
    ensures blk.section == e.section && e.name in blk.items
  {
    var m := Accumulated(es, true);
    assert meal in WeekendOrder;
    MaterializedKeys(m, WeekendOrder, meal);
    EntryInMealBlocks(es, true, meal, e);
    blk :| blk in MealBlocks(m, meal) && blk.section == e.section && e.name in blk.items;
  }

  /**
   * The weekend merge loses no name: a name of a block of the five-meal
   * document is in the block of the weekend meal that bucket is merged into,
   * under the block's section, renamed from "Late Night Specials" to
   * "Grill Dinner Specials" when it comes from late night.
   */
  lemma WeekendKeepsNames(base: MealDocument, meal: Meal, blk: Block, name: string)
    requires blk in GetOr(base, meal, []) && name in blk.items
    ensures exists b :: (
      b in GetOr(WeekendMerged(base), WeekendMeal(meal), []) && name in b.items && b.section == WeekendSection(meal, blk))
  {
    WeekendLookup(base);
    var dinner := GetOr(base, Dinner, []);
    var late := GetOr(base, LateNight, []);
    if meal == Breakfast || meal == Lunch || meal == Brunch {
      assert blk in BrunchBlocks(base);
      MergedLists(BrunchBlocks(base), blk, name);
    } else if meal == Dinner {
      DinnerKept(dinner, late, blk, name);
    } else {
      LateKept(dinner, late, blk, name);
    }
  }

  /** A dinner block's names reach the merged dinner under its own section. */
  lemma DinnerKept(dinner: seq<Block>, late: seq<Block>, blk: Block, name: string)
    requires blk in dinner && name in blk.items
    ensures exists b :: b in MergedBlocks(dinner + LateForDinner(late)) && b.section == MergeSection(blk) && name in b.items
  {
    assert (dinner + LateForDinner(late))[..|dinner|] == dinner;
    MergedLists(dinner + LateForDinner(late), blk, name);
  }

  /** A late-night block's names reach the merged dinner under its renamed section. */
  lemma LateKept(dinner: seq<Block>, late: seq<Block>, blk: Block, name: string)
    requires blk in late && name in blk.items
    ensures exists b :: b in MergedBlocks(dinner + LateForDinner(late)) && b.section == RenamedSection(blk) && name in b.items
  {
    var k :| 0 <= k < |late| && late[k] == blk;
    assert (dinner + LateForDinner(late))[|dinner| + k] == ForDinner(blk);
    MergedLists(dinner + LateForDinner(late), ForDinner(blk), name);
  }

  /** A name in an input block is in the merged block of that block's section. */
  lemma MergedLists(blocks: seq<Block>, target: Block, name: string)
    requires target in blocks && name in target.items
    ensures exists b :: b in MergedBlocks(blocks) && b.section == MergeSection(target) && name in b.items
  {
    MergedBlocksSpec(blocks);
    var s := MergeSection(target);
    assert s in SectionNames(MergedBlocks(blocks));
    var r := MergedBlocks(blocks);
    var j :| 0 <= j < |r| && SectionNames(r)[j] == s;
    assert r[j] in r;
    var k :| 0 <= k < |blocks| && blocks[k] == target;
    ConcatForHas(SectionPairs(blocks), k, name);
    DedupedMembers(ConcatFor(SectionPairs(blocks), s), name);
  }
}
