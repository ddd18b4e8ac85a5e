# Dining-menu normalisation, modelled in Dafny

The repository scrapes the daily Nutrislice menus of a university's dining
halls and turns them into small JSON documents for a front end. This project
models the part of it that does not touch the network: the rules that turn a
day's raw `menu_items` records into a menu.

* **East Side and West Side Dining** (`eastdi_scrape.py`, `westdi_scrape.py`;
  the two scripts share the same helper functions, scan and output step,
  shifted by a few lines). One pass over the records classifies each one:
  - a *header* (no `food` object, but a non-blank name-like field) sets the
    current section;
  - a *food record* (a non-blank `food.name`) is resolved to a section: the
    first truthy category hint, else "Other", with "Other" replaced by the
    current header;
  - anything else is skipped.
  Each food name is filed into meal buckets by its section:
  - a pizza or pasta section goes to lunch, dinner and late night on a
    weekday, and to brunch and dinner on a weekend;
  - any other section goes to the first of late night / breakfast / lunch
    whose word pattern it contains, else to dinner.
  The result (`meals_map`, meal → section → names) is then turned into a
  document. Each meal gets one block per section, with names deduplicated in
  first-seen order and blocks stably sorted by lower-cased section name. On a
  weekend:
  - breakfast, lunch and brunch are merged into "brunch";
  - dinner and late night are merged into "dinner", with late night's
    "Late Night Specials" renamed to "Grill Dinner Specials".
* **Jasmine** (`jasmine_scrape.py`). The same record scan, except that each
  stall's names are grouped by section, flattened in first-seen section order
  and deduplicated. Around it:
  - the opening-hours tables and the weekday → table key mapping;
  - the per-stall hours (Curry Kitchen closes on weekends);
  - the stall loop of `main`: a closed Curry Kitchen is not fetched, and a
    stall that yields nothing is listed as "Closed".

Modules, in dependency order:
- `Wrappers` (Option);
- `Ascii` (`str.strip`, `str.lower`, `\b` word patterns);
- `Dedupe`;
- `Dicts`: insertion-ordered dicts as association lists;
- `MenuRecords`: the field rules;
- `MealClassifier`;
- `RecordScan`: the shared loop, as a function of the records;
- `Accumulator`: `meals_map` and `add_name`, with `MealsMap` a class that
  `add_name` changes in place;
- `SectionSort`: the stable sort;
- `Materialize`: `meals_map_to_output`;
- `WeekendMerge`: `merge_blocks` and `weekend_merge_brunch_dinner`;
- `DiningMenu`: the east/west scan and output step;
- `Jasmine`.

Each loop that builds a list or dict is a method proved equal to a reference
function, and the lemmas state what those functions guarantee. The two
early-return searches (over the header fields in `detect_header_text` and over
`MEAL_KEYWORDS` in `guess_meal_from_section`) are recursive functions.

Sorting by the lower-cased name puts a section before any section whose name
extends it, so "Breakfast" comes before "Breakfast Station"
(`SectionSort.BreakfastFirst`).

## Model

Rows cite the east script. The west script is the same code at fixed offsets:
its helper functions (eastdi_scrape.py:47-151) are westdi_scrape.py:27-132,
20 lines earlier (the west copy has one extra blank line before the last
`return`), and its scan and output step (eastdi_scrape.py:189-233) are
westdi_scrape.py:172-216, 17 lines earlier. The Jasmine script has its own
copies of `safe_food_name`, `detect_header_text` and `dedupe_preserve_order`
(jasmine_scrape.py:61-79, 97-104), and a `pick_section_name` that folds in the
"Other" substitution (82-94). The rows about those functions cover the Jasmine
copies too.

| member | source | states |
|---|---|---|
| Ascii.TrimLeftSpec | eastdi_scrape.py:62-63 | stripping the left keeps a suffix, removes only whitespace, and the kept part starts with a non-space (or is empty) |
| Ascii.TrimRightSpec | eastdi_scrape.py:62-63 | stripping the right keeps a prefix, removes only whitespace, and the kept part ends with a non-space (or is empty) |
| Ascii.StripBlank | eastdi_scrape.py:62-63 | `s.strip()` is empty exactly when `s` is all whitespace; otherwise it has non-space characters at both ends |
| Dedupe.DedupePreserveOrder | eastdi_scrape.py:101-108 | the seen-set loop returns the first-occurrence deduplication of its input (the same code: westdi_scrape.py:81-88, jasmine_scrape.py:97-104) |
| Dedupe.DedupedMembers | eastdi_scrape.py:101-108 | a value is in the output iff it is in the input |
| Dedupe.DedupedNoDup | eastdi_scrape.py:101-108 | the output has no repeated value |
| Dedupe.DedupedOfNoDup | eastdi_scrape.py:101-108 | a repeat-free input is returned unchanged |
| Dedupe.DedupedIdempotent | eastdi_scrape.py:101-108 | deduplicating twice equals deduplicating once |
| Dedupe.DedupedFirstOccurrenceOrder | eastdi_scrape.py:101-108 | survivors appear in the order of their first occurrence in the input |
| Dicts.GetSome | eastdi_scrape.py:114 | `d.get(k)` finds a value exactly when `k` is a key |
| Dicts.PutKeys | eastdi_scrape.py:119 | assignment keeps a present key's position and appends a new key at the end |
| Dicts.GetPut | eastdi_scrape.py:119 | after `d[k] = v`, `k` reads back `v` and every other key reads as before |
| Dicts.GetAt | eastdi_scrape.py:116 | with distinct keys, iterating `items()` yields exactly what lookup returns for each key |
| Dicts.ExtendFacts | eastdi_scrape.py:127 | `setdefault(k, []).extend(vs)` grows only `k`'s list, by `vs`, and appends `k` if new |
| Dicts.GroupedKeys | eastdi_scrape.py:124-128 | a dict built by repeated `setdefault().extend()` has as keys the distinct keys in first-appearance order, without repeats |
| Dicts.GroupedGet | eastdi_scrape.py:124-128 | under each key it holds every list paired with that key, concatenated in order |
| Dicts.ConcatForHas | eastdi_scrape.py:127 | every item of every paired list reaches its key's concatenation |
| MenuRecords.SafeFoodNameSpec | eastdi_scrape.py:59-64 | no name iff the food object or its name is missing or blank; otherwise the stripped name, non-empty, with no whitespace at its ends (the same code: westdi_scrape.py:39-44, jasmine_scrape.py:61-66) |
| MenuRecords.FirstNonBlankSpec | eastdi_scrape.py:71-74 | the first non-blank candidate, stripped, wins; none iff all are blank; a result is never empty |
| MenuRecords.DetectHeaderTextSpec | eastdi_scrape.py:67-80 | a record with a food object is never a header; otherwise the header text is the first non-blank of name, text, label, description, menu_item_name and category.name, stripped; none iff all six are blank; never empty (the same code: westdi_scrape.py:47-60, jasmine_scrape.py:69-79) |
| MenuRecords.FirstTruthySpec | eastdi_scrape.py:50-56 | a chain of `or`s yields the first truthy operand, or the fallback when none is truthy |
| MenuRecords.PickSectionNameSpec | eastdi_scrape.py:47-56 | the section is the first truthy of menu_category.name, category.name, category_name and station, else "Other"; never empty (the same code: westdi_scrape.py:27-36) |
| MenuRecords.SectionInSpec | eastdi_scrape.py:201-203 | the current header replaces the section iff the hints gave "Other" and a different, non-empty header has been seen; the result is never empty (the same code: westdi_scrape.py:184-186, jasmine_scrape.py:82-94) |
| MenuRecords.ClassifySpec | eastdi_scrape.py:192-199 | a record is a header iff it has header text, and is a food entry iff it has no header text but has a food name; food records are never headers; texts, names and hints are non-empty |
| MealClassifier.KeyInjective | eastdi_scrape.py:230 | distinct meals have distinct output keys |
| MealClassifier.GuessMealInSpec | eastdi_scrape.py:83-87 | the keyword search returns the meal of the first matching pattern, and dinner when none matches |
| MealClassifier.GuessMealFromSectionCases | eastdi_scrape.py:83-87 | with the keyword table of lines 15-20, each of late night, breakfast, lunch and dinner is chosen iff its pattern is the first to match; brunch is never chosen (the same code: westdi_scrape.py:63-67) |
| MealClassifier.MealsForSpec | eastdi_scrape.py:205-216 | every food goes to at least one meal and to no meal twice; pizza/pasta goes to {lunch, dinner, late night} on a weekday and {brunch, dinner} on a weekend; any other section goes to exactly one non-brunch meal, which is late night iff the section says "late night"; brunch iff pizza/pasta on a weekend (the same code: westdi_scrape.py:188-199) |
| RecordScan.ScanAllSnoc | eastdi_scrape.py:191-203 | scanning one more record is one more loop step |
| RecordScan.ContextIsLastHeader | eastdi_scrape.py:189-195 | the current section is the text of the last header seen, and unset iff there was no header |
| RecordScan.EntriesOnlyGrow | eastdi_scrape.py:191-203 | later records never change an entry already produced |
| RecordScan.EntryCount | eastdi_scrape.py:191-203 | one entry per food record; headers and skipped records add none |
| RecordScan.EntriesNonEmpty | eastdi_scrape.py:192-203 | well-formed records give entries with non-empty names and sections, and a non-empty current section |
| RecordScan.ScanAllEntriesNonEmpty | eastdi_scrape.py:191-203 | no entry of a scan has an empty name or section |
| RecordScan.EntryNames | jasmine_scrape.py:136-147 | a name occurs among the entries iff it is the name of some food record |
| Accumulator.MealsMap.constructor | eastdi_scrape.py:168 | `meals_map` starts empty |
| Accumulator.MealsMap.AddName | eastdi_scrape.py:95-98 | `add_name` changes the dict to the one with `food` appended under (meal, section) (the same code: westdi_scrape.py:75-78) |
| Accumulator.PutTwice | eastdi_scrape.py:96-98 | assigning a key twice equals assigning the second value once |
| Accumulator.AddedNameNames | eastdi_scrape.py:95-98 | `add_name` appends exactly one name to exactly one (meal, section) list; every other list is unchanged |
| Accumulator.AddedNameKeys | eastdi_scrape.py:95-98 | a new meal is added after the existing meals, and a new section after that meal's existing sections |
| Accumulator.AddedNameOthers | eastdi_scrape.py:95-98 | other meals' section dicts are untouched |
| Accumulator.AddedToAllSpec | eastdi_scrape.py:205-213 | filing a name under distinct meals appends it once to each of their lists for that section and nowhere else |
| Accumulator.AddedToAllKeys | eastdi_scrape.py:205-213 | after filing, a section is a key under a meal iff it was before or it is the filed section and the meal is one of the targets |
| Accumulator.AccumulatedNames | eastdi_scrape.py:191-216 | after the scan, (meal, section) holds all names of that section's entries, in scan order, if the classifier sends the section to that meal, and nothing otherwise |
| Accumulator.AccumulatedKeys | eastdi_scrape.py:191-216 | a section is filed under a meal iff some entry has that section and the classifier sends it to that meal |
| Accumulator.EveryEntryLands | eastdi_scrape.py:205-216 | every food entry lands in some meal's list for its section |
| Accumulator.AddedNameDistinct | eastdi_scrape.py:95-98 | `add_name` keeps meal keys and per-meal section keys distinct |
| Accumulator.AddedToAllDistinct | eastdi_scrape.py:205-213 | so does filing under several meals |
| Accumulator.AccumulatedDistinct | eastdi_scrape.py:191-216 | the scan's dict never holds a meal, or a section under one meal, twice |
| SectionSort.InsertMultiset | eastdi_scrape.py:118 | inserting adds exactly the inserted block |
| SectionSort.InsertSorted | eastdi_scrape.py:118 | inserting into a sorted list keeps it sorted |
| SectionSort.InsertWithKey | eastdi_scrape.py:118 | inserting keeps the relative order of equal-key blocks, the new one first |
| SectionSort.SortBlocksFacts | eastdi_scrape.py:118 | the sort's result is ordered by lower-cased section, a permutation of its input, and keeps input order among equal keys (stable) |
| SectionSort.StableSortUnique | eastdi_scrape.py:118 | two sorted lists with the same per-key subsequences are equal |
| SectionSort.StableSortIsSortBlocks | eastdi_scrape.py:118 | any stable sort by this key, Python's included, gives the modelled result |
| SectionSort.StrLePrefix | eastdi_scrape.py:118 | a string sorts no later than any extension of it, and strictly before a proper one |
| SectionSort.PrefixSectionFirst | eastdi_scrape.py:118 | a section whose name extends another's is placed after it, whatever their input order |
| SectionSort.BreakfastFirst | eastdi_scrape.py:118 | "Breakfast" is placed before "Breakfast Station" |
| Materialize.MealsMapToOutput | eastdi_scrape.py:111-120 | the nested loops return the document specified by `Materialized` (the same code: westdi_scrape.py:91-100) |
| Materialize.MaterializedKeys | eastdi_scrape.py:111-120 | the document has exactly the meals of `meal_order`, once each, in that order, each bound to its sorted blocks; other meals are absent |
| Materialize.MealBlocksSpec | eastdi_scrape.py:114-119 | a meal's blocks are sorted, a stable permutation of one block per section, have no repeated names, and hold the deduplicated names of that (meal, section); an unfilled meal has no blocks |
| WeekendMerge.MergeBlocks | eastdi_scrape.py:123-130 | the grouping loop, comprehension and sort return `MergedBlocks` (the same code: westdi_scrape.py:103-110) |
| WeekendMerge.MergedBlocksSpec | eastdi_scrape.py:123-130 | the merged list is sorted, has each section once, has exactly the input's sections (empty counting as "Other"), and each block holds all that section's input items, concatenated in order and deduplicated |
| WeekendMerge.MergedSection | eastdi_scrape.py:126-128 | a section appears in the merged list iff some input block resolves to it |
| WeekendMerge.MergedSectionsDistinct | eastdi_scrape.py:128-129 | the blocks built from a dict with distinct keys keep distinct sections after sorting |
| WeekendMerge.AppendLateNight | eastdi_scrape.py:142-148 | the loop appends each late-night block to dinner, renaming "Late Night Specials" to "Grill Dinner Specials" |
| WeekendMerge.WeekendMergeBrunchDinner | eastdi_scrape.py:133-151 | the weekend function returns `WeekendMerged` of its input (the same code: westdi_scrape.py:113-132) |
| WeekendMerge.WeekendMergedSpec | eastdi_scrape.py:133-151 | the result has the keys brunch and dinner, in that order; brunch has exactly the sections of breakfast, lunch and brunch; dinner has exactly the dinner sections plus the late-night sections, renamed where applicable; "Late Night Specials" survives in dinner iff dinner itself had it (the same code: westdi_scrape.py:113-132) |
| WeekendMerge.DinnerBlockSections | eastdi_scrape.py:140-148 | a section occurs among the dinner blocks iff a dinner block has it or a late-night block is renamed to it |
| WeekendMerge.DinnerSections | eastdi_scrape.py:140-148 | the same, for any dinner and late-night lists |
| WeekendMerge.DinnerBlockOrigin | eastdi_scrape.py:140-148 | each dinner block is a dinner block or a renamed late-night block |
| WeekendMerge.LateBlockDestination | eastdi_scrape.py:142-148 | each late-night block reaches dinner under its renamed section |
| DiningMenu.ScanMenuItems | eastdi_scrape.py:189-216 | the scan loop fills `meals_map` with exactly `Accumulated` of the scanned entries (the same code: westdi_scrape.py:172-199) |
| DiningMenu.FileFood | eastdi_scrape.py:205-216 | one food is filed under exactly the meals `MealsFor` names, in that order |
| DiningMenu.BuildMeals | eastdi_scrape.py:229-233 | the output step returns the weekday document or the merged weekend document (the same code: westdi_scrape.py:212-216) |
| DiningMenu.DayMealsKeys | eastdi_scrape.py:229-233 | a weekday document has exactly the keys "breakfast", "lunch", "dinner" and "late_night", in that order; a weekend one exactly "brunch" and "dinner" |
| DiningMenu.WeekdayBlocks | eastdi_scrape.py:189-233 | every weekday block is of a section the classifier sends to that meal, and lists that section's food names deduplicated, never empty |
| DiningMenu.WeekdayEntryListed | eastdi_scrape.py:189-233 | every food of the day appears on a weekday menu under its section, in every meal its section is sent to |
| DiningMenu.EntryInMealBlocks | eastdi_scrape.py:111-120 | an entry's name is in the block of its section in each meal its section goes to |
| DiningMenu.WeekendEntryListed | eastdi_scrape.py:189-233 | on a weekend, for each meal its section is sent to, every food of the day appears in the meal that bucket merges into: brunch for breakfast, lunch and brunch, dinner for dinner and late night. It appears under its own section, except that late night's "Late Night Specials" becomes "Grill Dinner Specials" |
| DiningMenu.WeekendBaseListed | eastdi_scrape.py:229-230 | for each meal an entry's section is sent to, the five-meal document has a block of that section holding the entry's name |
| DiningMenu.WeekendKeepsNames | eastdi_scrape.py:133-151 | the weekend merge loses no name. A name of a block of any bucket is in the merged block of that bucket's weekend meal, under the block's section (empty as "Other"), renamed to "Grill Dinner Specials" only for late night's "Late Night Specials" |
| DiningMenu.DinnerKept | eastdi_scrape.py:140-150 | a dinner block's names reach the merged dinner under its own section |
| DiningMenu.LateKept | eastdi_scrape.py:142-150 | a late-night block's names reach the merged dinner under its renamed section |
| DiningMenu.WeekendLookup | eastdi_scrape.py:151 | looking up brunch and dinner in the weekend document yields its two lists |
| DiningMenu.MergedLists | eastdi_scrape.py:123-130 | a name of an input block is in the merged block of that block's section |
| Jasmine.WeekdayKeySpec | jasmine_scrape.py:50-58 | Monday to Thursday map to "mon_thu", Friday, Saturday and Sunday to their own keys; both tables have every key |
| Jasmine.TableLookups | jasmine_scrape.py:17-30 | the two tables' entries: 11am to 8pm on weekdays; 12pm to 7pm at the weekend for Jasmine and Closed for Curry Kitchen |
| Jasmine.StallHoursTodaySpec | jasmine_scrape.py:156-159 | the lookup never fails for a real weekday; Curry Kitchen is Closed exactly on Saturday and Sunday; every other stall has the Jasmine hours and is never Closed |
| Jasmine.JasmineHoursTodaySpec | jasmine_scrape.py:170 | the food court's hours are 12pm to 7pm at the weekend and 11am to 8pm otherwise |
| Jasmine.FetchFlatItems | jasmine_scrape.py:133-153 | the scan, `section_map`, flattening loop and dedupe return `FlatItems` of the records |
| Jasmine.FlatItemsSpec | jasmine_scrape.py:133-153 | the flat list has no repeats; it is the food names grouped by section, in order of the sections' first appearance, deduplicated; it holds exactly the food names of the non-header records |
| Jasmine.FlatMember | jasmine_scrape.py:136-153 | a name is in the flat list iff some non-header record carries it as food name |
| Jasmine.FlatItemsGrouping | jasmine_scrape.py:147-153 | the flat list is the names of each section, sections in first-appearance order, then deduplicated |
| Jasmine.ConcatForSectionLists | jasmine_scrape.py:147 | the list under a section is that section's entry names in order |
| Jasmine.FlattenIsJoined | jasmine_scrape.py:149-151 | the flattening loop joins the sections' name lists in key order |
| Jasmine.NamesInMembers | jasmine_scrape.py:147 | a name is in a section's list iff an entry of that section carries it |
| Jasmine.JoinedMembers | jasmine_scrape.py:149-151 | a name is in the joined lists iff an entry of one of those sections carries it |
| Jasmine.MapStalls | jasmine_scrape.py:176-207 | the loop yields one section per stall, in stall order |
| Jasmine.BuildSections | jasmine_scrape.py:176-207 | the stall loop returns the sections specified by `StallEntries` |
| Jasmine.BuildStallSection | jasmine_scrape.py:177-198 | one iteration, running `FetchFlatItems` on the fetched records, returns the section specified by `StallEntry` |
| Jasmine.BuildJasmineMenu | jasmine_scrape.py:162-207 | `main`'s document (hours and sections) is `JasmineOutput` |
| Jasmine.StallEntrySpec | jasmine_scrape.py:185-198 | a stall with no items is listed Closed, and so is one whose fetch raised; Curry Kitchen at the weekend is Closed with no items whatever the fetch gives; any other stall shows the flattened names of its fetched records and, when there are any, its table hours; the items never repeat, and each is the food name of a non-header record of the fetched day |
| Jasmine.JasmineOutputSpec | jasmine_scrape.py:167-207 | the document lists the four stalls in configured order and carries the food court's weekday-dependent hours |
| Jasmine.CurryStall | jasmine_scrape.py:33-38 | of the configured stalls only the second, "Curry Kitchen", is recognised as Curry Kitchen |
| Jasmine.CurryName | jasmine_scrape.py:157 | "Curry Kitchen" matches the case- and space-insensitive test; the three other stall names do not |

## Left out

- HTTP requests, JSON decoding, writing the output files, `print` and tracebacks. They are I/O. The records of a day are an input.
- The day lookup. This is the `days` list searched for today's date (eastdi_scrape.py:176-187, jasmine_scrape.py:119-131). It goes together with the statuses and messages it sets ("ok", "no_data_today"). Also left out are the "fetch_error" status and message set by the exception handler (eastdi_scrape.py:222-227), and the document's date, location, timezone and `updated_at` fields. All of these are I/O or clock-derived strings.
- The clock and the time zone. `is_weekend` and the Jasmine weekday (0 = Monday … 6 = Sunday) are parameters.
- The URL templates, `menu_url`, `FIXED_DATE` and the choice of fetch date. In the Jasmine stall loop, the request on the chosen date is the parameter `fetch`. It gives the day's `menu_items` (`[]` when the day is missing or empty), or `None` when it raises, which the loop turns into `[]`.
- `scrape.py`. It is not part of this model.
- Unicode. `str.strip`, `str.lower` and the regex classes `\s`, `\w`, `\b` are modelled on ASCII: whitespace is code points 9-13 and 28-32, and lower-casing is A-Z only.
- Non-string field values. A field is `Option<string>`, where `None` is missing or null. The `isinstance(..., str)` tests therefore reduce to presence. A non-string truthy value, which `pick_section_name` would pass through, is not representable. A `food` object is represented only by its `name`; an empty `food` object counts as missing, as it is falsy.
- Jasmine.StallHoursToday: returns `None` where `CURRY_HOURS[key]` or `JASMINE_HOURS[key]` would raise `KeyError`. The model does not raise. `Jasmine.StallHoursTodaySpec` proves this never happens for a key produced by `weekday_key`.
- SectionSort.SortBlocks: Python's `list.sort` (Timsort) is modelled as an insertion sort. `SectionSort.StableSortIsSortBlocks` proves that every stable sort by the same key gives the same list.
- Accumulator.MealsMap: only `meals_map` is an object updated in place. The other lists and dicts are built as values, which the loops reassign. Some of them share objects: the weekend dinner list holds `base`'s own late-night blocks (eastdi_scrape.py:148) and shares their `items` lists (144-146). Nothing shared is mutated afterwards, so values capture the behaviour.
