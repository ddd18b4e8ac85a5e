/**
 * `meals_map`: meal -> section -> food names, filled by `add_name` during the
 * east/west scan (duplicates kept, insertion order kept at both levels).
 */
module Accumulator {
  import opened Wrappers
  import opened Dedupe
  import opened Dicts
  import opened MealClassifier
  import opened RecordScan

  type Sections = Dict<string, seq<string>>
  type MealsDict = Dict<Meal, Sections>

  /** The names stored under (meal, section), `[]` when either is absent. */
  function NamesAt(m: MealsDict, meal: Meal, section: string): seq<string> {
    GetOr(GetOr(m, meal, []), section, [])
  }

  /** `add_name(meals_map, meal, section, food_name)` on the dict's value. */
  function AddedName(m: MealsDict, meal: Meal, section: string, food: string): MealsDict {
    Put(m, meal, Extend(GetOr(m, meal, []), section, [food]))
  }

  /** `add_name` once per meal of `meals`, in order. */
  function AddedToAll(m: MealsDict, meals: seq<Meal>, section: string, food: string): MealsDict
    decreases |meals|
  {
    if meals == [] then m else AddedToAll(AddedName(m, meals[0], section, food), meals[1..], section, food)
  }

  /** The dict the east/west scan builds from `{}` for the given entries. */
  function Accumulated(es: seq<Entry>, isWeekend: bool): MealsDict {
    if es == [] then []
    else
      var e := es[|es| - 1];
      AddedToAll(Accumulated(es[..|es| - 1], isWeekend), MealsFor(e.section, isWeekend), e.section, e.name)
  }

  /** `meals_map` as an object that `add_name` changes in place. */
  class MealsMap {
    var entries: MealsDict

    constructor ()
      ensures entries == []
    {
      entries := [];
    }

    /** `add_name`: two `setdefault`s and one `append`. */
    method AddName(meal: Meal, section: string, food: string)
      modifies this
      ensures entries == AddedName(old(entries), meal, section, food)
    {
      var sections := GetOr(entries, meal, []);
      entries := Put(entries, meal, sections);
      var names := GetOr(sections, section, []);
      sections := Put(sections, section, names);
      sections := Put(sections, section, names + [food]);
      entries := Put(entries, meal, sections);
      PutTwice(old(entries), meal, GetOr(old(entries), meal, []), sections);
      PutTwice(GetOr(old(entries), meal, []), section, names, names + [food]);
    }
  }

  lemma {:induction false} PutTwice<K, V>(d: Dict<K, V>, k: K, v: V, w: V)
    ensures Put(Put(d, k, v), k, w) == Put(d, k, w)
  {
    if d != [] && d[0].0 != k {
      PutTwice(d[1..], k, v, w);
    }
  }

  /** `add_name` appends exactly one name to one (meal, section) list and changes no other list. */
  lemma AddedNameNames(m: MealsDict, meal: Meal, section: string, food: string, meal': Meal, section': string)
    ensures NamesAt(AddedName(m, meal, section, food), meal', section') ==
      NamesAt(m, meal', section') + (if meal' == meal && section' == section then [food] else [])
  {
    var inner := Extend(GetOr(m, meal, []), section, [food]);
    GetPut(m, meal, inner, meal');
    ExtendFacts(GetOr(m, meal, []), section, [food], section');
  }

  /** A new meal is added after the existing ones, and a new section after the meal's existing ones. */
  lemma AddedNameKeys(m: MealsDict, meal: Meal, section: string, food: string)
    ensures Keys(AddedName(m, meal, section, food)) == if meal in Keys(m) then Keys(m) else Keys(m) + [meal]
    ensures Keys(GetOr(AddedName(m, meal, section, food), meal, [])) ==
      var ks := Keys(GetOr(m, meal, [])); if section in ks then ks else ks + [section]
  {
    var inner := Extend(GetOr(m, meal, []), section, [food]);
    GetPut(m, meal, inner, meal);
    PutKeys(m, meal, inner);
    ExtendFacts(GetOr(m, meal, []), section, [food], section);
  }

  /** The other meals' section dicts are untouched. */
  lemma AddedNameOthers(m: MealsDict, meal: Meal, section: string, food: string, meal': Meal)
    requires meal' != meal
    ensures GetOr(AddedName(m, meal, section, food), meal', []) == GetOr(m, meal', [])
  {
    GetPut(m, meal, Extend(GetOr(m, meal, []), section, [food]), meal');
  }

  /** Adding to several distinct meals appends the name once to each of their lists under `section`. */
  lemma {:induction false} AddedToAllSpec(m: MealsDict, meals: seq<Meal>, section: string, food: string, meal': Meal, section': string)
    requires NoDup(meals)
    decreases |meals|
    ensures NamesAt(AddedToAll(m, meals, section, food), meal', section') ==
      NamesAt(m, meal', section') + (if meal' in meals && section' == section then [food] else [])
  {
    if meals != [] {
      var m1 := AddedName(m, meals[0], section, food);
      AddedNameNames(m, meals[0], section, food, meal', section');
      assert NoDup(meals[1..]) by {
        assert forall i, j :: 0 <= i < j < |meals| - 1 ==> meals[1..][i] == meals[i + 1] && meals[1..][j] == meals[j + 1];
      }
      AddedToAllSpec(m1, meals[1..], section, food, meal', section');
      assert meals == [meals[0]] + meals[1..];
      assert meals[0] !in meals[1..];
    }
  }

  /**
   * The whole accumulator, read back: under (meal, section) are all names of the
   * entries of that section, in scan order, when the classifier sends that
   * section to that meal, and nothing otherwise.
   */
  lemma {:induction false} AccumulatedNames(es: seq<Entry>, isWeekend: bool, meal: Meal, section: string)
    ensures NamesAt(Accumulated(es, isWeekend), meal, section) ==
      if meal in MealsFor(section, isWeekend) then NamesIn(es, section) else []
  {
    if es != [] {
      var p := es[..|es| - 1];
      var e := es[|es| - 1];
      AccumulatedNames(p, isWeekend, meal, section);
      MealsForSpec(e.section, isWeekend);
      AddedToAllSpec(Accumulated(p, isWeekend), MealsFor(e.section, isWeekend), e.section, e.name, meal, section);
    }
  }

  /** The sections filed under a meal after `add_name` for several meals. */
  lemma {:induction false} AddedToAllKeys(m: MealsDict, meals: seq<Meal>, section: string, food: string, meal': Meal, section': string)
    decreases |meals|
    ensures section' in Keys(GetOr(AddedToAll(m, meals, section, food), meal', [])) <==>
      section' in Keys(GetOr(m, meal', [])) || (meal' in meals && section' == section)
  {
    if meals != [] {
      if meal' == meals[0] {
        AddedNameKeys(m, meals[0], section, food);
      } else {
        AddedNameOthers(m, meals[0], section, food, meal');
      }
      AddedToAllKeys(AddedName(m, meals[0], section, food), meals[1..], section, food, meal', section');
      assert meals == [meals[0]] + meals[1..];
    }
  }

  /**
   * A section is filed under a meal exactly when some entry has that section
   * and the classifier sends that section to that meal.
   */
  lemma {:induction false} AccumulatedKeys(es: seq<Entry>, isWeekend: bool, meal: Meal, section: string)
    ensures section in Keys(GetOr(Accumulated(es, isWeekend), meal, [])) <==>
      meal in MealsFor(section, isWeekend) && exists e :: e in es && e.section == section
  {
    if es != [] {
      var p := es[..|es| - 1];
      var e := es[|es| - 1];
      AccumulatedKeys(p, isWeekend, meal, section);
      AddedToAllKeys(Accumulated(p, isWeekend), MealsFor(e.section, isWeekend), e.section, e.name, meal, section);
      assert es == p + [e];
      if e' :| e' in es && e'.section == section {
        if e' != e {
          assert e' in p;
        }
      }
    }
  }

  /** Every entry lands in at least one meal's list for its section. */
  lemma EveryEntryLands(es: seq<Entry>, isWeekend: bool, e: Entry)
    requires e in es
    ensures exists meal :: e.name in NamesAt(Accumulated(es, isWeekend), meal, e.section)
  {
    MealsForSpec(e.section, isWeekend);
    var meal := MealsFor(e.section, isWeekend)[0];
    AccumulatedNames(es, isWeekend, meal, e.section);
    NamesInHas(es, e);
  }

  lemma {:induction false} NamesInHas(es: seq<Entry>, e: Entry)
    requires e in es
    ensures e.name in NamesIn(es, e.section)
  {
    var p := es[..|es| - 1];
    if es[|es| - 1] != e {
      assert es == p + [es[|es| - 1]];
      NamesInHas(p, e);
    }
  }

  /** Python dict keys are distinct, at both levels. */
  predicate DistinctKeys(m: MealsDict) {
    NoDup(Keys(m)) && forall meal :: NoDup(Keys(GetOr(m, meal, [])))
  }

  lemma AddedNameDistinct(m: MealsDict, meal: Meal, section: string, food: string)
    requires DistinctKeys(m)
    ensures DistinctKeys(AddedName(m, meal, section, food))
  {
    var m' := AddedName(m, meal, section, food);
    AddedNameKeys(m, meal, section, food);
    if meal !in Keys(m) {
      NoDupSnoc(Keys(m), meal);
    }
    var ks := Keys(GetOr(m, meal, []));
    if section !in ks {
      NoDupSnoc(ks, section);
    }
    forall meal' | meal' != meal ensures NoDup(Keys(GetOr(m', meal', []))) {
      AddedNameOthers(m, meal, section, food, meal');
    }
  }

  lemma {:induction false} AddedToAllDistinct(m: MealsDict, meals: seq<Meal>, section: string, food: string)
    requires DistinctKeys(m)
    decreases |meals|
    ensures DistinctKeys(AddedToAll(m, meals, section, food))
  {
    if meals != [] {
      AddedNameDistinct(m, meals[0], section, food);
      AddedToAllDistinct(AddedName(m, meals[0], section, food), meals[1..], section, food);
    }
  }

  /** The scan's dict never holds a meal or, within a meal, a section twice. */
  lemma {:induction false} AccumulatedDistinct(es: seq<Entry>, isWeekend: bool)
    ensures DistinctKeys(Accumulated(es, isWeekend))
  {
    if es != [] {
      var e := es[|es| - 1];
      AccumulatedDistinct(es[..|es| - 1], isWeekend);
      AddedToAllDistinct(Accumulated(es[..|es| - 1], isWeekend), MealsFor(e.section, isWeekend), e.section, e.name);
    }
  }
}
