/**
 * `meals_map_to_output`: for each meal of a fixed order, one block per section
 * with its names deduplicated, the blocks stably sorted by lower-cased section
 * name; a meal the scan never filled comes out as `[]`.
 */
module Materialize {
  import opened Wrappers
  import opened Dedupe
  import opened Dicts
  import opened MealClassifier
  import opened SectionSort
  import opened Accumulator

  /** The output document: meal -> blocks, in the order the meals were assigned. */
  type MealDocument = Dict<Meal, seq<Block>>

  /** `[{"section": sec, "items": dedupe_preserve_order(names)} for sec, names in sections.items()]`. */
  function BlocksOf(sections: Sections): (bs: seq<Block>)
    ensures |bs| == |sections|
    ensures forall i :: 0 <= i < |sections| ==> bs[i] == Block(sections[i].0, Deduped(sections[i].1))
  {
    seq(|sections|, i requires 0 <= i < |sections| => Block(sections[i].0, Deduped(sections[i].1)))
  }

  /** The blocks of one meal, sorted. */
  function MealBlocks(m: MealsDict, meal: Meal): seq<Block> {
    SortBlocks(BlocksOf(GetOr(m, meal, [])))
  }

  /** The dict `out` after the loop `for meal in meal_order: out[meal] = blocks`. */
  function Materialized(m: MealsDict, order: seq<Meal>): MealDocument {
    if order == [] then []
    else
      var meal := order[|order| - 1];
      Put(Materialized(m, order[..|order| - 1]), meal, MealBlocks(m, meal))
  }

  /** The two nested loops of `meals_map_to_output`; `blocks.sort(...)` is `SortBlocks`. */
  method MealsMapToOutput(m: MealsDict, order: seq<Meal>) returns (out: MealDocument)
    ensures out == Materialized(m, order)
  {
    out := [];
    for i := 0 to |order|
      invariant out == Materialized(m, order[..i])
    {
      var meal := order[i];
      var sections := GetOr(m, meal, []);
      var blocks: seq<Block> := [];
      for j := 0 to |sections|
        invariant blocks == BlocksOf(sections[..j])
      {
        var items := DedupePreserveOrder(sections[j].1);
        blocks := blocks + [Block(sections[j].0, items)];
      }
      assert sections[..|sections|] == sections;
      blocks := SortBlocks(blocks);
      assert order[..i + 1][..i] == order[..i];
      out := Put(out, meal, blocks);
    }
    assert order[..|order|] == order;
  }

  /** The output has exactly the meals of `meal_order`, each once, in that order, each bound to its sorted blocks. */
  lemma {:induction false} MaterializedKeys(m: MealsDict, order: seq<Meal>, meal: Meal)
    ensures Keys(Materialized(m, order)) == Deduped(order)
    ensures meal in order ==> Get(Materialized(m, order), meal) == Some(MealBlocks(m, meal))
    ensures meal !in order ==> Get(Materialized(m, order), meal) == None
  {
    if order != [] {
      var p := order[..|order| - 1];
      var last := order[|order| - 1];
      MaterializedKeys(m, p, meal);
      PutKeys(Materialized(m, p), last, MealBlocks(m, last));
      GetPut(Materialized(m, p), last, MealBlocks(m, last), meal);
      DedupedMembers(p, last);
      assert order == p + [last];
    }
  }

  /**
   * A meal's blocks are sorted by lower-cased section name and are, up to that
   * order, one block per section of the meal with its names deduplicated
   * (ties keep the dict's order); a meal absent from the dict has no blocks.
   */
  lemma MealBlocksSpec(m: MealsDict, meal: Meal)
    ensures SortedByKey(MealBlocks(m, meal))
    ensures multiset(MealBlocks(m, meal)) == multiset(BlocksOf(GetOr(m, meal, [])))
    ensures forall k :: WithKey(MealBlocks(m, meal), k) == WithKey(BlocksOf(GetOr(m, meal, [])), k)
    ensures forall b :: b in MealBlocks(m, meal) ==> NoDup(b.items)
    ensures DistinctKeys(m) ==> forall b :: b in MealBlocks(m, meal) ==>
      b.section in Keys(GetOr(m, meal, [])) && b.items == Deduped(NamesAt(m, meal, b.section))
    ensures meal !in Keys(m) ==> MealBlocks(m, meal) == []
  {
    var sections := GetOr(m, meal, []);
    SortBlocksFacts(BlocksOf(sections));
    forall b | b in MealBlocks(m, meal)
      ensures NoDup(b.items)
      ensures DistinctKeys(m) ==> b.section in Keys(sections) && b.items == Deduped(GetOr(sections, b.section, []))
    {
      assert b in multiset(BlocksOf(sections));
      var i :| 0 <= i < |sections| && BlocksOf(sections)[i] == b;
      DedupedNoDup(sections[i].1);
      if DistinctKeys(m) {
        GetAt(sections, i);
      }
    }
    GetSome(m, meal);
  }
}
