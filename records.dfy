/**
 * One entry of a day's Nutrislice `menu_items` list and the three field rules
 * read from it: the food name (`safe_food_name`), header detection
 * (`detect_header_text`) and section resolution (`pick_section_name`, with
 * the "Other" fallback replaced by the current header).
 */
module MenuRecords {
  import opened Wrappers
  import opened Ascii

  /** A non-empty `food` object; only its `name` is read. */
  datatype Food = Food(name: Option<string>)

  /**
   * The fields the engine reads. `food == None` stands for a missing, null or
   * empty `food` object (all falsy); the category objects are represented by
   * their `name` fields, which is all that is read from them.
   */
  datatype MenuRecord = MenuRecord(
    food: Option<Food>,
    name: Option<string>,
    text: Option<string>,
    labelText: Option<string>,         // label
    description: Option<string>,
    menuItemName: Option<string>,
    categoryName: Option<string>,       // category.name
    menuCategoryName: Option<string>,   // menu_category.name
    flatCategoryName: Option<string>,   // category_name
    station: Option<string>)

  /** Python truthiness of an optional string: present and not `""`. */
  predicate Truthy(o: Option<string>) {
    o.Some? && o.value != ""
  }

  /** `isinstance(v, str) and v.strip()` fails. */
  predicate IsBlankField(o: Option<string>) {
    o.None? || Strip(o.value) == ""
  }

  /** `c0 or c1 or ... or fallback`. */
  function FirstTruthy(cs: seq<Option<string>>, fallback: string): string {
    if cs == [] then fallback
    else if Truthy(cs[0]) then cs[0].value
    else FirstTruthy(cs[1..], fallback)
  }

  /** The first candidate that is non-blank, stripped. */
  function FirstNonBlank(cs: seq<Option<string>>): Option<string> {
    if cs == [] then None
    else if !IsBlankField(cs[0]) then Some(Strip(cs[0].value))
    else FirstNonBlank(cs[1..])
  }

  /** `safe_food_name`: the food object's name, stripped, unless it is missing or blank. */
  function SafeFoodName(r: MenuRecord): Option<string> {
    match r.food
    case None => None
    case Some(f) => if IsBlankField(f.name) then None else Some(Strip(f.name.value))
  }

  /** The header text candidates in priority order. */
  function HeaderCandidates(r: MenuRecord): seq<Option<string>> {
    [r.name, r.text, r.labelText, r.description, r.menuItemName, r.categoryName]
  }

  /** `detect_header_text`: no header when the record carries a food object. */
  function DetectHeaderText(r: MenuRecord): Option<string> {
    if r.food.Some? then None else FirstNonBlank(HeaderCandidates(r))
  }

  /** The section hints in priority order. */
  function SectionHints(r: MenuRecord): seq<Option<string>> {
    [r.menuCategoryName, r.categoryName, r.flatCategoryName, r.station]
  }

  const OtherSection := "Other"

  /** `pick_section_name` of the east and west scripts. */
  function PickSectionName(r: MenuRecord): string {
    FirstTruthy(SectionHints(r), OtherSection)
  }

  /** The east/west scan's substitution `if section == "Other" and current_section: section = current_section`. */
  function InContext(sec: string, current: Option<string>): string {
    if sec == OtherSection && Truthy(current) then current.value else sec
  }

  /** The section of a food record given the current header: the Jasmine `pick_section_name`. */
  function SectionIn(r: MenuRecord, current: Option<string>): string {
    InContext(PickSectionName(r), current)
  }

  /**
   * What a record is, independent of the scan's context: a header (the text
   * that becomes the current section), an inert record, or a food entry with
   * its name and the section its own hints give.
   */
  datatype RecordKind = HeaderRecord(text: string) | InertRecord | FoodRecord(name: string, hint: string)

  /** `if header: ...; continue` then `if not food_name: continue`, as one classification. */
  function Classify(r: MenuRecord): RecordKind {
    var header := DetectHeaderText(r);
    if Truthy(header) then HeaderRecord(header.value)
    else
      var food := SafeFoodName(r);
      if !Truthy(food) then InertRecord else FoodRecord(food.value, PickSectionName(r))
  }

  /** Header texts, food names and section hints are never empty. */
  predicate WellFormedKind(k: RecordKind) {
    match k
    case HeaderRecord(t) => t != ""
    case InertRecord => true
    case FoodRecord(n, h) => n != "" && h != ""
  }

  /** `c0 or c1 or ... or fallback` is the first truthy candidate, or the fallback when none is. */
  lemma {:induction false} FirstTruthySpec(cs: seq<Option<string>>, fallback: string)
    ensures (forall k :: 0 <= k < |cs| ==> !Truthy(cs[k])) ==> FirstTruthy(cs, fallback) == fallback
    ensures forall k :: 0 <= k < |cs| && Truthy(cs[k]) && (forall j :: 0 <= j < k ==> !Truthy(cs[j])) ==>
      FirstTruthy(cs, fallback) == cs[k].value
    ensures FirstTruthy(cs, fallback) == fallback || exists k :: 0 <= k < |cs| && Truthy(cs[k]) && FirstTruthy(cs, fallback) == cs[k].value
  {
    if cs != [] {
      FirstTruthySpec(cs[1..], fallback);
      if !Truthy(cs[0]) {
        forall k | 0 < k < |cs| && Truthy(cs[k]) && (forall j :: 0 <= j < k ==> !Truthy(cs[j]))
          ensures FirstTruthy(cs, fallback) == cs[k].value
        {
          assert cs[1..][k - 1] == cs[k];
          assert forall j :: 0 <= j < k - 1 ==> cs[1..][j] == cs[j + 1];
        }
        if FirstTruthy(cs, fallback) != fallback {
          var k :| 0 <= k < |cs[1..]| && Truthy(cs[1..][k]) && FirstTruthy(cs[1..], fallback) == cs[1..][k].value;
          assert cs[k + 1] == cs[1..][k];
        }
      }
    }
  }

  /** The first non-blank candidate, stripped, wins; `None` exactly when every candidate is blank. */
  lemma {:induction false} FirstNonBlankSpec(cs: seq<Option<string>>)
    ensures FirstNonBlank(cs).None? <==> forall k :: 0 <= k < |cs| ==> IsBlankField(cs[k])
    ensures forall k :: 0 <= k < |cs| && !IsBlankField(cs[k]) && (forall j :: 0 <= j < k ==> IsBlankField(cs[j])) ==>
      FirstNonBlank(cs) == Some(Strip(cs[k].value))
    ensures FirstNonBlank(cs).Some? ==> FirstNonBlank(cs).value != ""
  {
    if cs != [] {
      FirstNonBlankSpec(cs[1..]);
      if !IsBlankField(cs[0]) {
        StripBlank(cs[0].value);
      }
      assert forall k :: 0 < k < |cs| ==> cs[1..][k - 1] == cs[k];
      if IsBlankField(cs[0]) {
        forall k | 0 < k < |cs| && !IsBlankField(cs[k]) && (forall j :: 0 <= j < k ==> IsBlankField(cs[j]))
          ensures FirstNonBlank(cs) == Some(Strip(cs[k].value))
        {
          assert forall j :: 0 <= j < k - 1 ==> cs[1..][j] == cs[j + 1];
        }
      }
    }
  }

  /** A food name is the stripped `food.name`, never empty and without whitespace at either end; there is none exactly when the food object or its name is missing or blank. */
  lemma SafeFoodNameSpec(r: MenuRecord)
    ensures SafeFoodName(r).None? <==> r.food.None? || IsBlankField(r.food.value.name)
    ensures SafeFoodName(r).Some? ==> SafeFoodName(r).value == Strip(r.food.value.name.value)
    ensures SafeFoodName(r).Some? ==> var n := SafeFoodName(r).value;
      n != "" && !IsSpace(n[0]) && !IsSpace(n[|n| - 1])
  {
    if r.food.Some? && r.food.value.name.Some? {
      StripBlank(r.food.value.name.value);
    }
  }

  /**
   * A record with a food object is never a header. Otherwise the header is the
   * first non-blank field among name, text, label, description, menu_item_name
   * and category.name, stripped, and there is none when all of them are blank.
   */
  lemma DetectHeaderTextSpec(r: MenuRecord)
    ensures r.food.Some? ==> DetectHeaderText(r).None?
    ensures r.food.None? ==>
      (DetectHeaderText(r).None? <==> forall k :: 0 <= k < 6 ==> IsBlankField(HeaderCandidates(r)[k]))
    ensures r.food.None? ==> forall k ::
      (0 <= k < 6 && !IsBlankField(HeaderCandidates(r)[k])
       && forall j :: 0 <= j < k ==> IsBlankField(HeaderCandidates(r)[j])) ==>
      DetectHeaderText(r) == Some(Strip(HeaderCandidates(r)[k].value))
    ensures DetectHeaderText(r).Some? ==> DetectHeaderText(r).value != ""
  {
    FirstNonBlankSpec(HeaderCandidates(r));
  }

  /**
   * The section is the first truthy hint among menu_category.name,
   * category.name, category_name and station, else the literal "Other"; it is never empty.
   */
  lemma PickSectionNameSpec(r: MenuRecord)
    ensures (forall k :: 0 <= k < 4 ==> !Truthy(SectionHints(r)[k])) ==> PickSectionName(r) == OtherSection
    ensures forall k ::
      (0 <= k < 4 && Truthy(SectionHints(r)[k]) && forall j :: 0 <= j < k ==> !Truthy(SectionHints(r)[j])) ==>
      PickSectionName(r) == SectionHints(r)[k].value
    ensures PickSectionName(r) != ""
  {
    FirstTruthySpec(SectionHints(r), OtherSection);
  }

  /**
   * The current header replaces the section only when the hints resolved to the
   * literal "Other" and a header has been seen; the result is never empty.
   */
  lemma SectionInSpec(r: MenuRecord, current: Option<string>)
    ensures SectionIn(r, current) != PickSectionName(r) <==>
      PickSectionName(r) == OtherSection && Truthy(current) && current.value != OtherSection
    ensures PickSectionName(r) == OtherSection && Truthy(current) ==> SectionIn(r, current) == current.value
    ensures SectionIn(r, current) != ""
  {
    PickSectionNameSpec(r);
  }

  /**
   * A record with a food object is never a header; a header record is one whose
   * header text exists; a food entry is a non-header with a food name.
   */
  lemma ClassifySpec(r: MenuRecord)
    ensures r.food.Some? ==> !Classify(r).HeaderRecord?
    ensures Classify(r).HeaderRecord? <==> DetectHeaderText(r).Some?
    ensures Classify(r).HeaderRecord? ==> DetectHeaderText(r) == Some(Classify(r).text)
    ensures Classify(r).FoodRecord? <==> DetectHeaderText(r).None? && SafeFoodName(r).Some?
    ensures Classify(r).FoodRecord? ==>
      SafeFoodName(r) == Some(Classify(r).name) && Classify(r).hint == PickSectionName(r)
    ensures WellFormedKind(Classify(r))
  {
    DetectHeaderTextSpec(r);
    SafeFoodNameSpec(r);
    PickSectionNameSpec(r);
  }
}
