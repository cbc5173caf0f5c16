# cssstats report helpers, modelled in Dafny

This project models the report-building helpers of the cssstats web front end
(`controllers/stats.js`). They turn the facts a stylesheet analyser gathered about a CSS file
into report fields. The exported page model function of that file calls three of them
(parseTotals, parseUniques and uniquesGraph); parsePropertiesBreakdown, parseSpecificity and
rulesizeGraph are defined in the file but not called from it:

- **parseTotals**: how many values each of a fixed set of properties has, plus the number of
  font-size declarations.
- **parseUniques**: each fixed property's distinct values, plus the distinct font sizes (sorted
  largest first) and the distinct font families.
- **fontSizeToPx** and **sortFontSizes**: the approximate pixel size of a font-size token, and
  the in-place sort of tokens by it.
- **parsePropertiesBreakdown**: each property's share of all declarations. Shares under 2 percent
  are merged into one trailing `other` entry.
- **uniquesGraph**: per-property `{total, unique}` records, the largest total as `max`, and
  the bar lengths `total / max` and `unique / max`.
- **parseSpecificity** and **rulesizeGraph**: the specificity of every selector, and the
  declaration count of every rule that has a declaration list.

The analyser's query results (`declarations.properties`, `declarations.all`,
`getAllFontSizes()`, `getUniquePropertyCount(key)`, `aggregates.properties`, the rule and
selector lists) are inputs to the model. They are gathered in the `FactBase.Stats` value.

Modules:

| module | contents |
|---|---|
| `Wrappers` | `Option`, which stands for the source's falsy "no result" answers (`false`, `undefined`) |
| `JsNumbers` | JavaScript numbers as `Finite(real)`, `NaN` or an infinity; `>` (false on NaN), `*`, `/` and `parseFloat` on a decimal prefix |
| `Dedup` | lodash `_.uniq`: first-occurrence deduplication |
| `Keys` | the camel-case key naming (`background-color` becomes `backgroundColor`) |
| `FactBase` | the analyser's facts |
| `ArraySort` | an in-place array sort driven by a comparator, proved against a key function |
| `FontSize` | fontSizeToPx and sortFontSizes |
| `Aggregates` | parseTotals and parseUniques |
| `Breakdown` | parsePropertiesBreakdown |
| `GraphBuilder` | uniquesGraph as written, and with the loop variable scoped per key |
| `Series` | parseSpecificity and rulesizeGraph |

In these places the model follows the code as written:

- rulesizeGraph keeps a rule whose declaration list is empty and gives it 0. Only a rule with
  no list at all is skipped, because an empty array is truthy in JavaScript.
- parsePropertiesBreakdown has no guard against zero declarations. The model asks for at least
  one declaration when the property list is not empty. A property at exactly 2 percent is kept,
  because the test is `< 2`.
- uniquesGraph leaks the first loop's `camelKey` into the second loop, so only the last key's
  record is normalised (see "## Findings").
- The comparator of sortFontSizes never returns 0, and it treats NaN as "not larger". So no
  particular order of equal sizes is promised, and no order at all when some token is not
  numeric.

## Model

| member | source | states |
|---|---|---|
| `JsNumbers.ParseFloatOfNat` | controllers/stats.js:60 | `parseFloat` of a decimal numeral followed by a unit that does not start with a digit or `.` is that number |
| `JsNumbers.ParseFloat` | controllers/stats.js:60 | `parseFloat` on a decimal prefix: never infinite; NaN for the empty string and for a string starting with anything but a digit, sign or `.`; a non-negative number for a string starting with a digit |
| `JsNumbers.Magnitude` | controllers/stats.js:60 | the unsigned part of `parseFloat`: never infinite or negative; a number when the string starts with a digit; NaN when it starts with neither a digit nor `.` |
| `JsNumbers.ParseFloatOfSigned` | controllers/stats.js:60 | a leading `-` negates what `parseFloat` reads after it, and a leading `+` changes nothing |
| `JsNumbers.ParseFloatOfDecimal` | controllers/stats.js:60 | `parseFloat` of any optionally signed numeral with a point (leading zeros allowed, integer or fraction digits possibly missing) followed by a unit that does not start with a digit is the numeral's value |
| `JsNumbers.ParseFloatOfInteger` | controllers/stats.js:60 | `parseFloat` of any optionally signed run of digits, leading zeros allowed, followed by a unit that starts with neither a digit nor `.` is the value of the digits |
| `FontSize.FontSizeToPx` | controllers/stats.js:53-94 | the pixel size is never infinite, and it is NaN exactly for a token with a unit suffix whose numeric prefix does not parse |
| `FontSize.SuffixTable` | controllers/stats.js:60-69 | for every token, tested in order: a `px` token gives its numeric prefix, an `em` (so also `rem`) token the prefix times 16, a `%` token the prefix times 0.16 |
| `FontSize.UnitEnding` | controllers/stats.js:60-69 | any prefix followed by `px`, `em`, `rem` or `%` is converted by that unit's branch |
| `FontSize.LastCharSuffixes` | controllers/stats.js:61-69 | a token whose last character is not `x`, `m` or `%` does not match `/px$/`, `/em$/` or `/%$/` respectively |
| `FontSize.PxConversion` | controllers/stats.js:60-63 | a whole number of `px` converts to itself |
| `FontSize.EmConversion` | controllers/stats.js:60-66 | a whole number of `em` or `rem` converts to 16 times itself |
| `FontSize.PercentConversion` | controllers/stats.js:60-69 | a whole number of `%` converts to 0.16 times itself |
| `FontSize.UnitConversions` | controllers/stats.js:60-69 | a whole number of `px` converts to itself, of `em` (and so of `rem`, which ends in `em`) to 16 times itself, and of `%` to 0.16 times itself |
| `FontSize.KeywordFallback` | controllers/stats.js:70-93 | a token without a unit suffix converts to its keyword's size, or to 1024 when it is no keyword |
| `FontSize.KeywordsReachTable` | controllers/stats.js:70-90 | every keyword (`inherit`, `xx-small` … `larger`) reaches its table entry; the duplicate `small` case changes nothing |
| `FontSize.SamplePx` | controllers/stats.js:61-63 | `16px` converts to 16 |
| `FontSize.SampleEm` | controllers/stats.js:64-66 | `1em` converts to 16 |
| `FontSize.SamplePercent` | controllers/stats.js:67-69 | `50%` converts to 8 |
| `FontSize.SampleFractionEm` | controllers/stats.js:60-66 | `1.5em` converts to 24 |
| `FontSize.ParseSevenEighths` | controllers/stats.js:60 | `parseFloat(".875rem")` is 0.875 |
| `FontSize.SampleRootEm` | controllers/stats.js:60-66 | `.875rem` converts to 14 |
| `FontSize.ParseTwelveAndAHalf` | controllers/stats.js:60 | `parseFloat("12.5%")` is 12.5 |
| `FontSize.SampleFractionPercent` | controllers/stats.js:60-69 | `12.5%` converts to 2 |
| `FontSize.SampleSignedPx` | controllers/stats.js:60-63 | `-2px` converts to -2 |
| `FontSize.SampleLeadingZeroPx` | controllers/stats.js:60-63 | `012px` converts to 12 |
| `FontSize.SampleUnparsable` | controllers/stats.js:60-63 | `autopx`, whose prefix does not parse, converts to NaN |
| `FontSize.SampleKeywords` | controllers/stats.js:79-92 | `medium` converts to 16, and an unknown token to the sentinel 1024 |
| `FontSize.SortBy` | controllers/stats.js:97-105 | the comparator answers only -1 or 1, never 0, and -1 exactly when `a`'s size is strictly larger than `b`'s |
| `FontSize.SortByAgreesOnNumbers` | controllers/stats.js:97-105 | on numeric tokens the comparator puts `a` first only when its size is at least `b`'s, and after `b` only when it is at most `b`'s |
| `FontSize.SortFontSizes` | controllers/stats.js:96-109 | answers false exactly when there is no array; otherwise it permutes the array in place, and the result runs from the largest pixel size down when every token is numeric |
| `ArraySort.SortInPlace` | controllers/stats.js:108 | `Array.prototype.sort` with a comparator: the result is a permutation of the input, and it is ordered by the key the comparator is consistent with |
| `ArraySort.Insert` | controllers/stats.js:108 | one insertion step: the element moves left past the contiguous run of elements directly to its left that the comparator puts after it, stopping at the first one it does not; the run shifts one place right and nothing else moves |
| `ArraySort.InsertKeepsDescending` | controllers/stats.js:108 | placing an element between a prefix of keys at least its own and a segment of keys at most its own keeps the order descending |
| `ArraySort.InsertStepDescending` | controllers/stats.js:108 | an insertion step keeps a descending prefix descending |
| `ArraySort.InsertIsPermutation` | controllers/stats.js:108 | an insertion step moves elements and never loses or duplicates one |
| `ArraySort.CompatibleOnPermutation` | controllers/stats.js:108 | a comparator consistent with a key on a list stays consistent on any rearrangement of it |
| `Dedup.Uniq` | controllers/stats.js:33-37 | `_.uniq`: the result has no duplicates, every element of it is in the input, and every input element is in it |
| `Dedup.FirstIndex` | controllers/stats.js:33-37 | the first position of a value: it holds the value, and no earlier position does |
| `Dedup.UniqKeepsFirstOccurrenceOrder` | controllers/stats.js:33-37 | the deduplicated values appear in the order of their first occurrences |
| `Dedup.UniqOfDistinct` | controllers/stats.js:33-37 | a list without duplicates is returned unchanged |
| `Dedup.UniqIdempotent` | controllers/stats.js:33-37 | deduplicating twice is deduplicating once |
| `Keys.CamelCaseKeepsHead` | controllers/stats.js:17 | camel-casing keeps a name's first two characters when neither is a hyphen |
| `Keys.DistinctHeadsGiveDistinctKeys` | controllers/stats.js:15-17 | names that differ in their first two characters get distinct keys |
| `Aggregates.TotalKeysDistinct` | controllers/stats.js:15-17 | the five counted properties get five distinct keys |
| `Aggregates.UniqueKeysDistinct` | controllers/stats.js:30-33 | the seven deduplicated properties get seven distinct keys |
| `Aggregates.ParseTotals` | controllers/stats.js:8-23 | no stats gives `false`; otherwise exactly the five camel-cased keys, each with its property's value count, and `fontSize` with the number of font sizes |
| `Aggregates.NumericAfterUniq` | controllers/stats.js:36-38 | deduplicating numeric font sizes leaves them numeric |
| `Aggregates.ParseUniques` | controllers/stats.js:25-42 | no stats gives `false`; otherwise exactly the seven camel-cased keys, each with its property's deduplicated values (empty when absent), the deduplicated families, and `fontSize` and `fontSizeSorted` as one list: a permutation of the deduplicated sizes, largest first when all are numeric |
| `Breakdown.PartitionSum` | controllers/stats.js:118-127 | every share lands either in a kept entry or in `other`, so kept percentages plus `other` equal the sum of all shares |
| `Breakdown.KeptExactlyAtThreshold` | controllers/stats.js:121-126 | a property gets its own entry exactly when its share is at least 2 percent, and every entry is a listed property with its own share |
| `Breakdown.SharesAddUp` | controllers/stats.js:121 | the shares add up to the properties' declarations as a percentage of all declarations |
| `Breakdown.WholeIsHundred` | controllers/stats.js:118-130 | when the listed properties account for every declaration, the entries including `other` add up to 100 percent |
| `Breakdown.ByPercentage` | controllers/stats.js:129 | the comparator `b.percentage - a.percentage` is positive exactly when `a` has the smaller percentage, and 0 exactly on equal percentages |
| `Breakdown.ByPercentageAgrees` | controllers/stats.js:129 | the comparator `b.percentage - a.percentage` orders entries from the largest percentage down |
| `Breakdown.PropertiesBreakdown` | controllers/stats.js:111-135 | `false` exactly when there are no stats, no properties or no kept entry; otherwise a permutation of the kept entries from the largest percentage down, followed by one `other` entry with the sum of the merged shares |
| `GraphBuilder.RecordsHaveKeys` | controllers/stats.js:141-143 | the first loop writes a record under every key's camel-cased name, and under no other name |
| `GraphBuilder.RecordsAt` | controllers/stats.js:141-153 | with distinct keys, each key's record holds its value count and unique count, or zeros when the property is absent |
| `GraphBuilder.MaxIsGreatestTotal` | controllers/stats.js:139-152 | `max` is at least every key's value count, and it is 0 or equal to one of them |
| `GraphBuilder.AsWrittenRecords` | controllers/stats.js:137-161 | as written, every record holds its counts, every record but the last has no bar lengths, and the last is normalised by `max` |
| `GraphBuilder.NormaliseAll` | controllers/stats.js:155-159 | normalising the listed keys keeps the set of records |
| `GraphBuilder.NormaliseAllAt` | controllers/stats.js:155-159 | with distinct keys, the corrected loop normalises each listed record exactly once |
| `GraphBuilder.NormaliseAllUntouched` | controllers/stats.js:155-159 | a record whose key is not listed is left unchanged |
| `GraphBuilder.ScopedRecords` | controllers/stats.js:155-159 | with one binding per key, every record is its counts normalised by `max` |
| `GraphBuilder.BarInUnitRange` | controllers/stats.js:157 | a total of at most a positive `max` gives a finite bar length between 0 and 1 |
| `GraphBuilder.FirstLoopStep` | controllers/stats.js:141-153 | one step of the first loop adds the key's record and raises `max` to its total when larger |
| `GraphBuilder.NormalisedTwice` | controllers/stats.js:155-159 | normalising a record again changes nothing, so the six repeated passes equal one |
| `GraphBuilder.ScopedInUnitRange` | controllers/stats.js:155-159 | with one binding per key and a positive `max`, every bar length is finite and between 0 and 1 |
| `GraphBuilder.GraphAsWrittenFacts` | controllers/stats.js:137-161 | for the six configured keys as written: the counts, `max` as the greatest count, no bar lengths for the first five, and a bar length between 0 and 1 for `backgroundColor` |
| `GraphBuilder.GraphScopedFacts` | controllers/stats.js:137-161 | for the six configured keys with one binding per key: every record normalised, and every bar length between 0 and 1 when `max` is positive |
| `GraphBuilder.LeakOver` | controllers/stats.js:142-158 | over any two or more distinct keys, the as-written and the scoped graphs differ in every record but the last, and agree on `max` and the last record |
| `GraphBuilder.CamelKeyLeak` | controllers/stats.js:142-158 | for every fact base, `width` through `color` get no bar lengths as written but do when scoped; the graphs agree on `max` and on `backgroundColor` |
| `GraphBuilder.FillRecords` | controllers/stats.js:141-154 | the first loop yields the records, `max`, and the last key's name left in `camelKey` |
| `GraphBuilder.NormaliseLeaked` | controllers/stats.js:155-159 | the second loop as written normalises only the record under the leaked name, and only when it exists |
| `GraphBuilder.NormaliseEach` | controllers/stats.js:155-159 | the corrected second loop normalises each key's own record |
| `GraphBuilder.UniquesGraph` | controllers/stats.js:137-161 | uniquesGraph computes the as-written graph |
| `GraphBuilder.UniquesGraphScoped` | controllers/stats.js:137-161 | the corrected uniquesGraph computes the scoped graph |
| `Series.ParseSpecificity` | controllers/stats.js:44-51 | an empty selector list gives `undefined`; otherwise the list of their specificities, one per selector, in order |
| `Series.CountsFollowKeptRules` | controllers/stats.js:163-170 | the rule-size series has one entry per rule with a declaration list, in rule order, each entry that rule's declaration count, and no such rule is missed |
| `Series.CountsOfAppend` | controllers/stats.js:165-168 | the series of a concatenation of rule lists is the concatenation of their series |
| `Series.RulesizeGraph` | controllers/stats.js:163-170 | rulesizeGraph computes the declaration counts of the rules that have a declaration list |

## Left out

- The exported page model function (controllers/stats.js:172-193) is left out. It runs the analyser and a CSS beautifier and logs to the console. Of the helpers modelled here it calls only parseTotals, parseUniques and uniquesGraph. It takes `specificityGraph` and `rulesizeGraph` from the analyser's own results (lines 187-188), not from parseSpecificity or rulesizeGraph, and it deduplicates the media queries with `_.uniq` (line 189); those steps are not modelled.
- `percentagePretty` (`toFixed(2)`, controllers/stats.js:131-133) is left out: decimal formatting of floating point numbers is not modelled.
- All arithmetic is on exact reals rather than IEEE doubles. Rounding in `raw * .16` or `length / total * 100` is not modelled.
- `Keys.CamelCase` models only the hyphen rule of the `camel-case` package. Its other rules (underscores, spaces, case changes inside words) never apply to the fixed lower-case property names used here.
- `JsNumbers.ParseFloat` reads an optional sign, digits, and an optional fraction. It leaves out leading whitespace, exponents and `Infinity`.
- The `stats.declarations.properties.total = _.size(...)` write in parseTotals (controllers/stats.js:12) is left out. It adds a `total` entry to the fact base as a side effect that none of the modelled results read.
- The `toString()` conversion of a non-string font size (controllers/stats.js:56-58) is left out: font sizes are strings here.
- `camelKey` in uniquesGraph (controllers/stats.js:142), and `c` and `d` in the comparator of sortFontSizes (controllers/stats.js:98-99), are undeclared, and so global, variables. The model keeps `camelKey` as a value passed from the first loop to the second, and `c` and `d` as locals. That these globals stay behind, holding the last values written, after the call returns, is not modelled.
- `Array.prototype.sort` is modelled by an insertion sort. The engine's own algorithm, and the order it gives to elements the comparator does not rank, are not modelled.
- `FontSize.SortFontSizes`: by the ECMAScript definition, the comparator is never consistent: it answers 1 for `sortBy(a, a)` and for two equal sizes in both orders. So the language itself promises only a permutation. The descending order the model proves, when every token converts to a number, comes from the insertion sort standing in for the engine's sort (an engine that only tests whether the answer is below 0 gives it too). With a NaN size no order is promised at all.
- `Breakdown.PropertiesBreakdown`: requires at least one declaration when there are properties. The source divides by zero otherwise and produces NaN shares, which the model does not follow.
- `Breakdown.PropertiesBreakdown`: requires every listed property to have a `byProperty` declaration list. The source reads `.length` of an absent list (controllers/stats.js:121) and throws a TypeError, which the model does not follow.
- `Aggregates.ParseTotals`: requires each counted property to be present, because the source reads `.length` of an absent list and throws.
- `GraphBuilder.UniquesGraph`: takes a fact base that is present. The source would throw on a missing one.
- The stylesheet analyser, `getUniquePropertyCount`, `getAllFontSizes` and the selector and rule lists are inputs. Their computation is not part of this model.

## Findings

| source | as written | input that shows it | evidently intended | confidence | as-written member | corrected member |
|---|---|---|---|---|---|---|
| controllers/stats.js:142-158 | the second loop of uniquesGraph indexes `obj[camelKey]`, where `camelKey` is the undeclared variable left by the first loop, so all six passes normalise the `backgroundColor` record only | any fact base, e.g. one where `width` has values: its record gets no `percentTotal` | each key's own record gets `percentTotal` and `percentUnique` | not executed | `GraphBuilder.CamelKeyLeak` | `GraphBuilder.GraphScopedFacts` |
