/**
 * Weekend consolidation: `merge_blocks` (one block per section, items
 * concatenated then deduplicated, blocks re-sorted) and
 * `weekend_merge_brunch_dinner` (breakfast + lunch + brunch -> brunch;
 * dinner + late night -> dinner, "Late Night Specials" renamed).
 */
module WeekendMerge {
  import opened Wrappers
  import opened Dedupe
  import opened Dicts
  import opened MealClassifier
  import opened SectionSort
  import opened Materialize

  const LateNightSourceSection := "Late Night Specials"
  const LateNightTargetSection := "Grill Dinner Specials"

  /** `b.get("section") or "Other"`. */
  function MergeSection(b: Block): string {
    if b.section == "" then "Other" else b.section
  }

  /** The (section, items) pairs the merge loop visits. */
  function SectionPairs(blocks: seq<Block>): (ps: seq<(string, seq<string>)>)
    ensures |ps| == |blocks|
    ensures forall i :: 0 <= i < |blocks| ==> ps[i] == (MergeSection(blocks[i]), blocks[i].items)
  {
    seq(|blocks|, i requires 0 <= i < |blocks| => (MergeSection(blocks[i]), blocks[i].items))
  }

  /** The sections of a block list, in order. */
  function SectionNames(blocks: seq<Block>): (ss: seq<string>)
    ensures |ss| == |blocks| && forall i :: 0 <= i < |blocks| ==> ss[i] == blocks[i].section
  {
    seq(|blocks|, i requires 0 <= i < |blocks| => blocks[i].section)
  }

  /** `merge_blocks`. */
  function MergedBlocks(blocks: seq<Block>): seq<Block> {
    SortBlocks(BlocksOf(Grouped(SectionPairs(blocks))))
  }

  /** The block a late-night block becomes in the dinner list. */
  function ForDinner(b: Block): Block {
    if MergeSection(b) == LateNightSourceSection then Block(LateNightTargetSection, b.items) else b
  }

  /** The late-night blocks as the loop appends them to the dinner blocks. */
  function LateForDinner(late: seq<Block>): (r: seq<Block>)
    ensures |r| == |late| && forall i :: 0 <= i < |late| ==> r[i] == ForDinner(late[i])
  {
    seq(|late|, i requires 0 <= i < |late| => ForDinner(late[i]))
  }

  /** `dinner_blocks` after the late-night loop. */
  function DinnerBlocks(base: MealDocument): seq<Block> {
    GetOr(base, Dinner, []) + LateForDinner(GetOr(base, LateNight, []))
  }

  /** `brunch_blocks`. */
  function BrunchBlocks(base: MealDocument): seq<Block> {
    GetOr(base, Breakfast, []) + GetOr(base, Lunch, []) + GetOr(base, Brunch, [])
  }

  /** `weekend_merge_brunch_dinner`. */
  function WeekendMerged(base: MealDocument): MealDocument {
    [(Brunch, MergedBlocks(BrunchBlocks(base))), (Dinner, MergedBlocks(DinnerBlocks(base)))]
  }

  /** The `sec_map` loop, the list comprehension and the sort of `merge_blocks`. */
  method MergeBlocks(blocks: seq<Block>) returns (merged: seq<Block>)
    ensures merged == MergedBlocks(blocks)
  {
    var secMap: Dict<string, seq<string>> := [];
    for i := 0 to |blocks|
      invariant secMap == Grouped(SectionPairs(blocks[..i]))
    {
      var b := blocks[i];
      var s := if b.section == "" then "Other" else b.section;
      secMap := Extend(secMap, s, b.items);
      assert SectionPairs(blocks[..i + 1])[..i] == SectionPairs(blocks[..i]);
    }
    assert blocks[..|blocks|] == blocks;
    merged := [];
    for j := 0 to |secMap|
      invariant merged == BlocksOf(secMap[..j])
    {
      var items := DedupePreserveOrder(secMap[j].1);
      merged := merged + [Block(secMap[j].0, items)];
    }
    assert secMap[..|secMap|] == secMap;
    merged := SortBlocks(merged);
  }

  /** The weekend output: the brunch list, the dinner list, then the two merges. */
  method WeekendMergeBrunchDinner(base: MealDocument) returns (out: MealDocument)
    ensures out == WeekendMerged(base)
  {
    var brunchBlocks := GetOr(base, Breakfast, []);
    brunchBlocks := brunchBlocks + GetOr(base, Lunch, []);
    brunchBlocks := brunchBlocks + GetOr(base, Brunch, []);
    var brunch := MergeBlocks(brunchBlocks);
    var dinnerBlocks := AppendLateNight(GetOr(base, Dinner, []), GetOr(base, LateNight, []));
    var dinner := MergeBlocks(dinnerBlocks);
    out := [(Brunch, brunch), (Dinner, dinner)];
  }

  /** The `dinner_blocks.append` loop over the late-night blocks. */
  method AppendLateNight(dinner: seq<Block>, late: seq<Block>) returns (dinnerBlocks: seq<Block>)
    ensures dinnerBlocks == dinner + LateForDinner(late)
  {
    dinnerBlocks := dinner;
    for i := 0 to |late|
      invariant dinnerBlocks == dinner + LateForDinner(late[..i])
    {
      var b := late[i];
      var sec := if b.section == "" then "Other" else b.section;
      assert LateForDinner(late[..i + 1]) == LateForDinner(late[..i]) + [ForDinner(b)];
      if sec == LateNightSourceSection {
        dinnerBlocks := dinnerBlocks + [Block(LateNightTargetSection, b.items)];
      } else {
        dinnerBlocks := dinnerBlocks + [b];
      }
    }
    assert late[..|late|] == late;
  }

  /**
   * The merge yields one block per distinct section of its input (an empty
   * section counting as "Other"), sorted by lower-cased name; each block's items
   * are the items of all input blocks of that section, concatenated in input
   * order and then deduplicated.
   */
  lemma MergedBlocksSpec(blocks: seq<Block>)
    ensures SortedByKey(MergedBlocks(blocks))
    ensures NoDup(SectionNames(MergedBlocks(blocks)))
    ensures forall s :: s in SectionNames(MergedBlocks(blocks)) <==> exists b :: b in blocks && MergeSection(b) == s
    ensures forall b :: b in MergedBlocks(blocks) ==>
      b.items == Deduped(ConcatFor(SectionPairs(blocks), b.section)) && NoDup(b.items)
  {
    var ps := SectionPairs(blocks);
    var g := Grouped(ps);
    var r := MergedBlocks(blocks);
    GroupedKeys(ps);
    SortBlocksFacts(BlocksOf(g));
    forall b | b in r
      ensures exists i :: 0 <= i < |g| && b == BlocksOf(g)[i]
    {
      assert b in multiset(BlocksOf(g));
    }
    forall b | b in r
      ensures b.section in Keys(g) && b.items == Deduped(ConcatFor(ps, b.section)) && NoDup(b.items)
    {
      var i :| 0 <= i < |g| && b == BlocksOf(g)[i];
      GetAt(g, i);
      GroupedGet(ps, b.section);
      DedupedNoDup(g[i].1);
    }
    forall s ensures s in SectionNames(r) <==> exists b :: b in blocks && MergeSection(b) == s {
      MergedSection(blocks, s);
    }
    MergedSectionsDistinct(g, r);
  }

  /** The section a late-night block lands under in the weekend dinner. */
  function RenamedSection(b: Block): string {
    if MergeSection(b) == LateNightSourceSection then LateNightTargetSection else MergeSection(b)
  }

  /**
   * The weekend document has exactly the keys brunch and dinner, in that order.
   * Brunch holds the sections of breakfast, lunch and brunch; dinner holds the
   * dinner sections and the late-night sections, where "Late Night Specials"
   * from late night is filed under "Grill Dinner Specials" (so
   * "Late Night Specials" survives only if dinner itself had it).
   */
  lemma WeekendMergedSpec(base: MealDocument)
    ensures Keys(WeekendMerged(base)) == [Brunch, Dinner]
    ensures forall s :: s in SectionNames(WeekendMerged(base)[0].1) <==>
      exists b :: b in BrunchBlocks(base) && MergeSection(b) == s
    ensures forall s :: s in SectionNames(WeekendMerged(base)[1].1) <==>
      (exists b :: b in GetOr(base, Dinner, []) && MergeSection(b) == s) ||
      (exists b :: b in GetOr(base, LateNight, []) && RenamedSection(b) == s)
    ensures LateNightSourceSection in SectionNames(WeekendMerged(base)[1].1) <==>
      exists b :: b in GetOr(base, Dinner, []) && MergeSection(b) == LateNightSourceSection
  {
    MergedBlocksSpec(BrunchBlocks(base));
    MergedBlocksSpec(DinnerBlocks(base));
    forall s ensures s in SectionNames(WeekendMerged(base)[1].1) <==>
      (exists b :: b in GetOr(base, Dinner, []) && MergeSection(b) == s) ||
      (exists b :: b in GetOr(base, LateNight, []) && RenamedSection(b) == s)
    {
      DinnerBlockSections(base, s);
    }
  }

  lemma DinnerBlockSections(base: MealDocument, s: string)
    ensures (exists b :: b in DinnerBlocks(base) && MergeSection(b) == s) <==>
      (exists b :: b in GetOr(base, Dinner, []) && MergeSection(b) == s) ||
      (exists b :: b in GetOr(base, LateNight, []) && RenamedSection(b) == s)
  {
    DinnerSections(GetOr(base, Dinner, []), GetOr(base, LateNight, []), s);
  }

  lemma DinnerSections(dinner: seq<Block>, late: seq<Block>, s: string)
    ensures (exists b :: b in dinner + LateForDinner(late) && MergeSection(b) == s) <==>
      (exists b :: b in dinner && MergeSection(b) == s) ||
      (exists b :: b in late && RenamedSection(b) == s)
  {
    var dbs := dinner + LateForDinner(late);
    if b :| b in dbs && MergeSection(b) == s {
      DinnerBlockOrigin(dinner, late, b);
    }
    if b :| b in dinner && MergeSection(b) == s {
      assert b in dbs;
    }
    if b :| b in late && RenamedSection(b) == s {
      LateBlockDestination(dinner, late, b);
    }
  }

  /** A dinner-side block is a dinner block or a renamed late-night block. */
  lemma DinnerBlockOrigin(dinner: seq<Block>, late: seq<Block>, b: Block)
    requires b in dinner + LateForDinner(late)
    ensures b in dinner || exists c :: c in late && RenamedSection(c) == MergeSection(b)
  {
    var dbs := dinner + LateForDinner(late);
    var k :| 0 <= k < |dbs| && dbs[k] == b;
    if k >= |dinner| {
      var c := late[k - |dinner|];
      assert c in late;
      assert b == ForDinner(c);
    }
  }

  /** Each late-night block enters the dinner side under its renamed section. */
  lemma LateBlockDestination(dinner: seq<Block>, late: seq<Block>, c: Block)
    requires c in late
    ensures ForDinner(c) in dinner + LateForDinner(late) && MergeSection(ForDinner(c)) == RenamedSection(c)
  {
    var k :| 0 <= k < |late| && late[k] == c;
    assert (dinner + LateForDinner(late))[|dinner| + k] == ForDinner(c);
  }

  /** A section is merged exactly when some input block has it. */
  lemma MergedSection(blocks: seq<Block>, s: string)
    ensures s in SectionNames(MergedBlocks(blocks)) <==> exists b :: b in blocks && MergeSection(b) == s
  {
    var ps := SectionPairs(blocks);
    var g := Grouped(ps);
    var r := MergedBlocks(blocks);
    GroupedKeys(ps);
    SortBlocksFacts(BlocksOf(g));
    DedupedMembers(Firsts(ps), s);
    if s in SectionNames(r) {
      var i :| 0 <= i < |r| && SectionNames(r)[i] == s;
      assert r[i] in multiset(BlocksOf(g));
      var k :| 0 <= k < |g| && BlocksOf(g)[k] == r[i];
      assert s in Keys(g);
      var k' :| 0 <= k' < |ps| && Firsts(ps)[k'] == s;
      assert blocks[k'] in blocks;
    }
    if b :| b in blocks && MergeSection(b) == s {
      var k :| 0 <= k < |blocks| && blocks[k] == b;
      assert Firsts(ps)[k] == s;
      var i :| 0 <= i < |g| && Keys(g)[i] == s;
      assert BlocksOf(g)[i] in multiset(r);
      var j :| 0 <= j < |r| && r[j] == BlocksOf(g)[i];
      assert SectionNames(r)[j] == s;
    }
  }

  lemma MergedSectionsDistinct(g: Dict<string, seq<string>>, r: seq<Block>)
    requires NoDup(Keys(g))
    requires multiset(r) == multiset(BlocksOf(g))
    ensures NoDup(SectionNames(r))
  {
    var bs := BlocksOf(g);
    assert SectionNames(bs) == Keys(g);
    PermutedSectionsDistinct(bs, r);
  }

  lemma PermutedSectionsDistinct(bs: seq<Block>, r: seq<Block>)
    requires NoDup(SectionNames(bs))
    requires multiset(r) == multiset(bs)
    ensures NoDup(SectionNames(r))
  {
    assert NoDup(bs) by {
      forall i, j | 0 <= i < j < |bs| ensures bs[i] != bs[j] {
        assert SectionNames(bs)[i] != SectionNames(bs)[j];
      }
    }
    NoDupMultiset(bs, r);
    forall i, j | 0 <= i < j < |r| ensures SectionNames(r)[i] != SectionNames(r)[j] {
      IndexIn(r, bs, i);
      IndexIn(r, bs, j);
      var i' :| 0 <= i' < |bs| && bs[i'] == r[i];
      var j' :| 0 <= j' < |bs| && bs[j'] == r[j];
      assert i' != j';
      if i' < j' {
        assert SectionNames(bs)[i'] != SectionNames(bs)[j'];
      } else {
        assert SectionNames(bs)[j'] != SectionNames(bs)[i'];
      }
    }
  }

  lemma IndexIn<T>(r: seq<T>, bs: seq<T>, i: nat)
    requires multiset(r) == multiset(bs) && i < |r|
    ensures exists k :: 0 <= k < |bs| && bs[k] == r[i]
  {
    assert r[i] in multiset(r);
    assert r[i] in bs;
  }

  lemma NoDupMultiset<T>(a: seq<T>, b: seq<T>)
    requires NoDup(a) && multiset(a) == multiset(b)
    ensures NoDup(b)
  {
    forall x ensures multiset(a)[x] <= 1 {
      NoDupCount(a, x);
    }
    forall i, j | 0 <= i < j < |b| ensures b[i] != b[j] {
      if b[i] == b[j] {
        TwoOccurrences(b, i, j);
        assert false;
      }
    }
  }

  lemma TwoOccurrences<T>(b: seq<T>, i: nat, j: nat)
    requires i < j < |b| && b[i] == b[j]
    ensures multiset(b)[b[i]] >= 2
  {
    assert b == b[..i] + [b[i]] + b[i + 1..j] + [b[j]] + b[j + 1..];
  }

  lemma {:induction false} NoDupCount<T>(a: seq<T>, x: T)
    requires NoDup(a)
    ensures multiset(a)[x] <= 1
  {
    if a != [] {
      assert a == [a[0]] + a[1..];
      assert NoDup(a[1..]) by {
        assert forall i, j :: 0 <= i < j < |a| - 1 ==> a[1..][i] == a[i + 1] && a[1..][j] == a[j + 1];
      }
      NoDupCount(a[1..], x);
      if a[0] == x {
        assert x !in a[1..];
      }
    }
  }
}
