/**
 * The meal classifier: which meal buckets a resolved section name goes to.
 * A pizza or pasta section fans out to several meals under its own name;
 * any other section goes to the first meal of `MEAL_KEYWORDS` whose pattern
 * it matches, and to dinner when none matches.
 */
module MealClassifier {
  import opened Ascii
  import opened Dedupe

  datatype Meal = Breakfast | Lunch | Dinner | LateNight | Brunch {
    /** The key the meal has in the output document. */
    function Key(): string {
      match this
      case Breakfast => "breakfast"
      case Lunch => "lunch"
      case Dinner => "dinner"
      case LateNight => "late_night"
      case Brunch => "brunch"
    }
  }

  /** The output keys of a list of meals. */
  function KeyNames(ms: seq<Meal>): (ks: seq<string>)
    ensures |ks| == |ms| && forall i :: 0 <= i < |ms| ==> ks[i] == ms[i].Key()
  {
    seq(|ms|, i requires 0 <= i < |ms| => ms[i].Key())
  }

  /** Distinct meals have distinct output keys. */
  lemma KeyInjective(a: Meal, b: Meal)
    ensures a.Key() == b.Key() <==> a == b
  {
    if a != b {
      assert a.Key()[0] != b.Key()[0] || a.Key()[2] != b.Key()[2];
    }
  }

  /** The two shapes of the compiled patterns: `\bWORD\b` and `\blate\s*night\b`, both with `re.I`. */
  datatype Pattern = Word(w: string) | LateNightWords

  /** `pat.search(section)` succeeds. */
  predicate Matches(p: Pattern, s: string) {
    match p
    case Word(w) => ContainsWord(s, w)
    case LateNightWords => ContainsLateNight(s)
  }

  /** `MEAL_KEYWORDS`, in its order. */
  const MealKeywords: seq<(Meal, Pattern)> :=
    [(LateNight, LateNightWords), (Breakfast, Word("breakfast")), (Lunch, Word("lunch")), (Dinner, Word("dinner"))]

  /** The early-return search of `guess_meal_from_section` over a keyword table. */
  function GuessMealIn(kws: seq<(Meal, Pattern)>, s: string): Meal {
    if kws == [] then Dinner
    else if Matches(kws[0].1, s) then kws[0].0
    else GuessMealIn(kws[1..], s)
  }

  /** `guess_meal_from_section`. */
  function GuessMealFromSection(s: string): Meal {
    GuessMealIn(MealKeywords, s)
  }

  /** `is_pizza_or_pasta_section`. */
  predicate IsPizzaOrPastaSection(s: string) {
    ContainsWord(s, "pizza") || ContainsWord(s, "pasta")
  }

  /** The meals a food entry of section `s` is added to, in the order the scan adds them. */
  function MealsFor(s: string, isWeekend: bool): seq<Meal> {
    if IsPizzaOrPastaSection(s) then
      if isWeekend then [Brunch, Dinner] else [Lunch, Dinner, LateNight]
    else [GuessMealFromSection(s)]
  }

  /** The search returns the meal of the first matching pattern, and dinner when no pattern matches. */
  lemma {:induction false} GuessMealInSpec(kws: seq<(Meal, Pattern)>, s: string)
    ensures (forall k :: 0 <= k < |kws| ==> !Matches(kws[k].1, s)) ==> GuessMealIn(kws, s) == Dinner
    ensures forall k ::
      (0 <= k < |kws| && Matches(kws[k].1, s) && forall j :: 0 <= j < k ==> !Matches(kws[j].1, s)) ==>
      GuessMealIn(kws, s) == kws[k].0
  {
    if kws != [] {
      GuessMealInSpec(kws[1..], s);
      assert forall k :: 0 < k < |kws| ==> kws[1..][k - 1] == kws[k];
      if !Matches(kws[0].1, s) {
        forall k | 0 < k < |kws| && Matches(kws[k].1, s) && (forall j :: 0 <= j < k ==> !Matches(kws[j].1, s))
          ensures GuessMealIn(kws, s) == kws[k].0
        {
          assert forall j :: 0 <= j < k - 1 ==> kws[1..][j] == kws[j + 1];
        }
      }
    }
  }

  /** With the fixed table: late night, then breakfast, then lunch, and dinner for everything else; never brunch. */
  lemma GuessMealFromSectionCases(s: string)
    ensures GuessMealFromSection(s) == LateNight <==> ContainsLateNight(s)
    ensures GuessMealFromSection(s) == Breakfast <==> !ContainsLateNight(s) && ContainsWord(s, "breakfast")
    ensures GuessMealFromSection(s) == Lunch <==>
      !ContainsLateNight(s) && !ContainsWord(s, "breakfast") && ContainsWord(s, "lunch")
    ensures GuessMealFromSection(s) == Dinner <==>
      !ContainsLateNight(s) && !ContainsWord(s, "breakfast") && !ContainsWord(s, "lunch")
  {
    GuessMealInSpec(MealKeywords, s);
    var kws := MealKeywords;
    assert kws[0].1 == LateNightWords && kws[1].1 == Word("breakfast");
    assert kws[2].1 == Word("lunch") && kws[3].1 == Word("dinner");
    if !ContainsLateNight(s) && !ContainsWord(s, "breakfast") && !ContainsWord(s, "lunch") {
      if !ContainsWord(s, "dinner") {
        assert forall k :: 0 <= k < |kws| ==> !Matches(kws[k].1, s);
      }
    }
  }

  /**
   * Every food entry goes to at least one meal and to no meal twice. A pizza or
   * pasta section goes to lunch, dinner and late night on a weekday and to brunch
   * and dinner on a weekend, whatever meal keyword it also contains; any other
   * section goes to exactly its keyword meal, which is never brunch.
   */
  lemma MealsForSpec(s: string, isWeekend: bool)
    ensures |MealsFor(s, isWeekend)| >= 1 && NoDup(MealsFor(s, isWeekend))
    ensures Dinner in MealsFor(s, isWeekend) || !IsPizzaOrPastaSection(s)
    ensures IsPizzaOrPastaSection(s) && isWeekend ==> multiset(MealsFor(s, isWeekend)) == multiset{Brunch, Dinner}
    ensures IsPizzaOrPastaSection(s) && !isWeekend ==>
      multiset(MealsFor(s, isWeekend)) == multiset{Lunch, Dinner, LateNight}
    ensures !IsPizzaOrPastaSection(s) ==>
      |MealsFor(s, isWeekend)| == 1 && MealsFor(s, isWeekend)[0] != Brunch
      && (MealsFor(s, isWeekend)[0] == LateNight <==> ContainsLateNight(s))
    ensures Brunch in MealsFor(s, isWeekend) <==> IsPizzaOrPastaSection(s) && isWeekend
  {
    GuessMealFromSectionCases(s);
  }
}
