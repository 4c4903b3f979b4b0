# Setlist utilities: a verified model

This project models the utility layer of a comedy setlist manager, the
TypeScript modules under `src/utils/`:

- the **setlist suggester** (`SetlistSuggester.ts`) filters a joke pool by tag,
  scores every joke (by rating or at random), fills a time budget greedily or
  takes a fixed number of jokes, optionally chains the selection by tag
  similarity, and reports the total duration and average rating;
- **durations** (`duration.ts`) are formatted as `M:SS`, parsed back from
  `M:SS`, `M:` or bare seconds, estimated from word counts and validated;
- **tag colours** (`tagColors.ts`) are looked up by case-insensitive name or
  assigned from a fifteen-colour palette;
- the **joke list** (`JokeFilter.ts`, `JokeSorter.ts`, `JokeListUtils.ts`) is
  searched, filtered by tag, sorted stably by name, rating or duration, and
  summarised;
- **import** (`fileImport.ts`) turns CSV rows and Excel sheets into jokes and
  row errors, and **export** (`fileExport.ts`) writes jokes as CSV rows and as
  document paragraphs.

One Dafny module stands for each source file: `SetlistSuggester`,
`Duration`, `TagColors`, `JokeFilter`, `JokeSorter`, `JokeListUtils`,
`FileImport` and `FileExport`. Five helper modules hold what they share.
`Jokes` has the records. `Text` has JavaScript's `trim`, `toLowerCase`,
`includes`, `split`, `join` and string `<` over ASCII. `Seqs` has filter and
map with their lemmas. `Sorting` is a stable insertion sort: a function used
as the specification, and an in-place array method proved equal to it. It
stands for `Array.prototype.sort`. `Wrappers` has `Option` and `Result`.

`Math.random` is never called. Each operation that draws receives the values
the calls would return, one per call, each in [0, 1); the suggester makes
one call per joke, in pool order. Every property below therefore holds for
every possible outcome of the random source. The loops of the source are methods: the duration walk, the
best-match scan and chaining loop of `groupByTags`, the tag-colour
assignment, the CSV and Excel row loops, the header mapping and the metadata
collection. Each is proved equal to a recursive function, and the lemmas are
about that function.

Three behaviours of the code are easy to miss:

- `groupByTags` tracks the remaining jokes by **id**. Exactly one joke per id
  survives: `jokes[0]` for its own id, and for every other id whichever joke
  with that id the greedy scan picks first. That joke is not necessarily the
  earliest one with the id. The result is a permutation of the input only when
  the ids are distinct (`GroupedFacts`, `GroupedPermutation`).
- With a non-positive target duration, `selectByDuration` can still return one
  joke: the first joke in score order with a positive duration of at most
  `targetSeconds + 30` is taken, and the walk stops there
  (`DurationSelectionBounds` proves at most one).
- `selectByQuantity` with a negative count returns all but the last `-count`
  jokes, because that is what `slice(0, count)` does (`SliceEnd`).

## Model

| member | source | states |
|---|---|---|
| SetlistSuggester.FilterByTags | src/utils/SetlistSuggester.ts:22-30 | With no tag ids the pool itself. Otherwise: a subsequence of the pool; a joke is in it iff it is in the pool and shares a requested tag; such a joke keeps every occurrence. |
| SetlistSuggester.ScoreJoke | src/utils/SetlistSuggester.ts:36-47 | Without rating preference the score is in [0, 1). With it, the score is in [rating*10, rating*10 + 0.5), an unrated joke counting as 0. |
| SetlistSuggester.HigherRatingScoresHigher | src/utils/SetlistSuggester.ts:42-46 | With rating preference, a strictly higher rating always gets a strictly higher score, whatever the random values. |
| SetlistSuggester.ByScore | src/utils/SetlistSuggester.ts:59-64 | Scores the pool and sorts it by descending score; its properties are stated by `ByScoreOrder`. |
| SetlistSuggester.ScoreAll | src/utils/SetlistSuggester.ts:59-62 | One scored entry per joke, in pool order, each scored from its own random value. |
| SetlistSuggester.OutscoresIsStrictWeakOrder | src/utils/SetlistSuggester.ts:64 | The comparator `b.score - a.score` orders entries as a strict weak order. |
| SetlistSuggester.ByScoreOrder | src/utils/SetlistSuggester.ts:59-64 | The sorted entries are a permutation of the scored pool, with scores non-increasing. Equal scores keep pool order. With rating preference, ratings are non-increasing too. |
| SetlistSuggester.FillFrom | src/utils/SetlistSuggester.ts:66-88 | The recursive walk over the sorted entries; stated by `FillPicksTimedEntries`, `FillWithinAllowance`, `FillStopsAtTarget` and `FillGreedy`. |
| SetlistSuggester.SecondsIsTotal | src/utils/SetlistSuggester.ts:67-79 | The running `currentDuration` is the summed `duration \|\| 0` of the jokes taken. |
| SetlistSuggester.FillPicksTimedEntries | src/utils/SetlistSuggester.ts:69-73 | The walk takes a subsequence of the sorted entries, all with a positive duration. |
| SetlistSuggester.FillWithinAllowance | src/utils/SetlistSuggester.ts:75-80 | Every non-empty prefix of what the walk takes stays within `targetSeconds + 30`. |
| SetlistSuggester.FillStopsAtTarget | src/utils/SetlistSuggester.ts:81-84 | Every proper prefix is below `targetSeconds`: the walk stops once the target is reached. |
| SetlistSuggester.FillGreedy | src/utils/SetlistSuggester.ts:69-86 | A walk ending short of the target left out only timed entries that would overshoot `targetSeconds + 30`. |
| SetlistSuggester.FillLoop | src/utils/SetlistSuggester.ts:66-88 | The `for` loop with its `continue` and `break` returns the jokes of the recursive walk. |
| SetlistSuggester.DurationSelection | src/utils/SetlistSuggester.ts:53-89 | The jokes `selectByDuration` returns; stated by `DurationSelectionBounds`, `DurationSelectionOrder` and `DurationSelectionGreedy`. |
| SetlistSuggester.SelectByDuration | src/utils/SetlistSuggester.ts:53-89 | Scoring, sorting a copy in place and filling give the duration selection. |
| SetlistSuggester.DurationSelectionBounds | src/utils/SetlistSuggester.ts:53-89 | Only jokes with a positive duration. Every prefix is within target + 30, every proper prefix below the target. A non-positive target gives at most one joke. |
| SetlistSuggester.DurationSelectionOrder | src/utils/SetlistSuggester.ts:53-89 | The taken entries are a subsequence of the sorted ones, in score order. Each joke is drawn at most as often as the pool holds it. With rating preference, ratings are non-increasing. |
| SetlistSuggester.DurationSelectionGreedy | src/utils/SetlistSuggester.ts:69-88 | Below the target, every timed pool joke left out would overshoot target + 30. |
| SetlistSuggester.SliceEnd | src/utils/SetlistSuggester.ts:107 | `slice(0, count)` ends at min(count, n) for a non-negative count, and at max(n + count, 0) for a negative one. |
| SetlistSuggester.SelectByQuantity | src/utils/SetlistSuggester.ts:94-108 | The first `slice(0, count)` jokes in score order; stated by `QuantitySelectionFacts`. |
| SetlistSuggester.QuantitySelectionFacts | src/utils/SetlistSuggester.ts:94-108 | The result is the first `SliceEnd` sorted jokes: min(count, \|pool\|) of them for count >= 0, in score order, drawn from the pool. With rating preference, no left-out joke is rated above a taken one. |
| SetlistSuggester.Similarity | src/utils/SetlistSuggester.ts:139-141 | The tag similarity is never negative. |
| SetlistSuggester.SharedTagScoresPositive | src/utils/SetlistSuggester.ts:139-141 | Sharing a tag gives a positive similarity. |
| SetlistSuggester.NoSharedTagScoresZero | src/utils/SetlistSuggester.ts:139-141 | Sharing no tag gives similarity 0. |
| SetlistSuggester.SimilarityPositiveIff | src/utils/SetlistSuggester.ts:139-141 | Similarity is positive iff the two jokes share a tag. |
| SetlistSuggester.Scan | src/utils/SetlistSuggester.ts:132-147 | After k jokes, the scan has no match and score -1 iff no remaining joke was seen. Otherwise it holds the first seen remaining joke of greatest similarity, with that similarity. |
| SetlistSuggester.FindBestMatch | src/utils/SetlistSuggester.ts:132-147 | The inner `for` loop returns the scan's best match, null as `None`. |
| SetlistSuggester.NextPick | src/utils/SetlistSuggester.ts:128-152 | While ids remain, `bestMatch` is never null: it is a pool joke whose id remains. |
| SetlistSuggester.Grouped | src/utils/SetlistSuggester.ts:114-156 | The result of `groupByTags`; stated by `GroupedFacts` and `GroupedPermutation`. |
| SetlistSuggester.GroupByTags | src/utils/SetlistSuggester.ts:114-156 | The `while` loop with the id set returns the recursive chain. |
| SetlistSuggester.ChainTurn | src/utils/SetlistSuggester.ts:128-153 | One turn keeps placed and remaining ids disjoint and covering the pool, keeps placed ids distinct, and appends a greedy step. |
| SetlistSuggester.ChainFacts | src/utils/SetlistSuggester.ts:128-153 | The loop extends the list built so far, places every id and adds only greedy steps. |
| SetlistSuggester.GroupedFacts | src/utils/SetlistSuggester.ts:114-156 | For two or more jokes: starts with the first joke and holds one joke per distinct id, all from the pool. Each later joke is the first remaining joke most similar to its predecessor. |
| SetlistSuggester.GroupedPermutation | src/utils/SetlistSuggester.ts:114-156 | Grouping never repeats or invents a joke. With distinct ids it is a permutation of the input. |
| SetlistSuggester.CalculateStats | src/utils/SetlistSuggester.ts:161-170 | Total duration and average positive rating; stated by `AverageRatingBounds` and `StatsPermutation`. |
| SetlistSuggester.AverageRatingBounds | src/utils/SetlistSuggester.ts:161-170 | The average is 0 iff no joke has a positive rating. Otherwise it is at least 1 and lies within any bounds on the positive ratings. |
| SetlistSuggester.StatsPermutation | src/utils/SetlistSuggester.ts:161-170 | Statistics do not depend on the order of the jokes. |
| SetlistSuggester.Suggestion | src/utils/SetlistSuggester.ts:175-200 | The suggestion `suggestSetlist` returns; stated by `SuggestionFromPool`, `DurationSuggestionBounds`, `QuantitySuggestionSize` and `GroupingKeepsStats`. |
| SetlistSuggester.Suggest | src/utils/SetlistSuggester.ts:175-200 | The pipeline is filter, select by mode, optionally group, then compute statistics. |
| SetlistSuggester.SelectionFromPool | src/utils/SetlistSuggester.ts:176-185 | The selection is drawn from the tag-filtered pool, as a sub-multiset. |
| SetlistSuggester.OptionalGrouping | src/utils/SetlistSuggester.ts:188-190 | Optional grouping only drops or reorders jokes, never adding duration. |
| SetlistSuggester.GroupingWithin | src/utils/SetlistSuggester.ts:188-190 | Grouping keeps "all jokes timed" and "total within a bound". |
| SetlistSuggester.SuggestionFromPool | src/utils/SetlistSuggester.ts:175-200 | Suggested jokes come from the pool, each at most as often as it appears there, and pass the tag filter. The reported total is their summed duration, non-negative. |
| SetlistSuggester.SuggestionOfEmptyPool | src/utils/SetlistSuggester.ts:175-200 | An empty pool gives no jokes, total 0 and average 0. |
| SetlistSuggester.DurationSuggestionBounds | src/utils/SetlistSuggester.ts:175-200 | In duration mode every joke has a duration, and a non-empty total is within target + 30. A non-positive target gives at most one joke. |
| SetlistSuggester.QuantitySuggestionSize | src/utils/SetlistSuggester.ts:175-200 | In quantity mode there are at most `targetQuantity` jokes. Without grouping there are exactly min(targetQuantity, \|filtered pool\|). |
| SetlistSuggester.GroupingKeepsStats | src/utils/SetlistSuggester.ts:187-193 | With distinct ids, grouping permutes the selection and leaves its statistics unchanged. |
| SetlistSuggester.GetDefaultConfig | src/utils/SetlistSuggester.ts:205-214 | Duration mode, 900 s target, quantity 10, no tag filter, no rating preference, grouping on. |
| SetlistSuggester.DefaultSuggestionBound | src/utils/SetlistSuggester.ts:205-214 | A default suggestion lasts at most 930 seconds. |
| Jokes.TotalDurationNonNegative | src/utils/SetlistSuggester.ts:162 | The summed `duration \|\| 0` is never negative. |
| Jokes.TotalsPermutation | src/utils/JokeListUtils.ts:24-27 | Total duration and rating sum do not depend on order. |
| Sorting.SortPermutes | src/utils/JokeSorter.ts:16 | The stable sort returns a permutation of its input. |
| Sorting.SortSorted | src/utils/JokeSorter.ts:16-23 | Under a strict weak order, no element is placed after one that goes before it. |
| Sorting.SortStable | src/utils/JokeSorter.ts:16-23 | Elements the comparator ties keep their input order. |
| Sorting.InsertInPlace | src/utils/JokeSorter.ts:16 | One in-place step inserts `a[i]` into the sorted prefix and leaves the rest of the array alone. |
| Sorting.SortInPlace | src/utils/JokeSorter.ts:16 | Sorting the array in place yields the stable sort of its old contents. |
| Text.BlankIffAllSpace | src/utils/JokeFilter.ts:28 | `s.trim()` is empty iff every character is whitespace. |
| Text.ToLowerIdempotent | src/utils/JokeFilter.ts:30-32 | Lower-casing twice equals lower-casing once. |
| Text.IncludesIff | src/utils/JokeFilter.ts:31-32 | `includes` holds iff the needle occurs at some offset. |
| Text.Trim | src/utils/fileImport.ts:43 | `trim()` is no longer than its input and neither starts nor ends with whitespace. |
| Text.TrimStart | src/utils/fileImport.ts:51 | Leading trim drops a prefix made only of whitespace and leaves a text not starting with it. |
| Text.TrimEnd | src/utils/fileImport.ts:51 | Trailing trim drops a suffix made only of whitespace and leaves a text not ending with it. |
| Text.ToLower | src/utils/JokeFilter.ts:30 | `toLowerCase()` keeps the length and lower-cases each character in place. |
| Text.Split | src/utils/fileImport.ts:39 | `split(sep)` gives at least one piece, and no piece contains the separator. |
| Text.NatToString | src/utils/fileExport.ts:42 | `toString()` of a natural number is decimal digits without a leading zero whose value is the number. |
| Text.IntToString | src/utils/fileExport.ts:41 | `toString()` of an integer starts with '-' iff the integer is negative. After the sign come decimal digits without a leading zero whose value is the magnitude. |
| Text.StringLessIrreflexive | src/utils/JokeSorter.ts:19-21 | No string is `<` itself. |
| Text.StringLessTransitive | src/utils/JokeSorter.ts:19-21 | String `<` is transitive. |
| Text.StringLessTotal | src/utils/JokeSorter.ts:19-21 | Of two different strings, one is `<` the other. |
| Text.JoinSplit | src/utils/fileImport.ts:159 | Joining the pieces of `split(sep)` with `sep` gives back the text. |
| Duration.FormatSecondsToMMSS | src/utils/duration.ts:1-8 | `formatSecondsToMMSS`; stated by `FormatShape` and `ParseFormatRoundTrip`. |
| Duration.PadStart2 | src/utils/duration.ts:7 | `padStart(2, '0')` keeps texts of two or more characters. Shorter ones get leading zeros up to length 2, the text ending the result. |
| Duration.FormatShape | src/utils/duration.ts:1-8 | Non-positive input gives "0:00". Otherwise: the minutes in decimal with no leading zero, a colon, and exactly two digits for `seconds % 60`. |
| Duration.ParseMMSSToSeconds | src/utils/duration.ts:10-41 | Blank text gives 0. A success is non-negative. Every failure carries one of the two messages the parser throws. |
| Duration.ParseErrorMessage | src/utils/duration.ts:21-40 | Text that is neither bare digits nor colon-shaped fails with the format message. A colon shape whose seconds reach 60 fails with "Seconds must be less than 60". |
| Duration.ParseTrimmed | src/utils/duration.ts:13-40 | On trimmed text, a success is non-negative and a failure carries one of the two thrown messages. |
| Duration.ParseColon | src/utils/duration.ts:21-38 | `M:SS`, `M:S` and `M:` texts parse to minutes*60 + seconds, or fail with "Seconds must be less than 60". |
| Duration.ParseOkShape | src/utils/duration.ts:16-40 | Any other accepted text has the colon shape, with seconds below 60. |
| Duration.ParseOkIff | src/utils/duration.ts:10-41 | Parsing succeeds iff the text is blank, bare digits (read as seconds), or a colon shape with seconds below 60. |
| Duration.ParseTrimmedOkIff | src/utils/duration.ts:13-40 | The same for already-trimmed text. |
| Duration.ParseClockText | src/utils/duration.ts:21-32 | Minutes, a colon and two digits below 60 parse to minutes*60 + seconds. |
| Duration.ParseFormattedClock | src/utils/duration.ts:1-41 | Text shaped as the formatter writes it for `seconds` parses back to `seconds`. |
| Duration.ParseZeroClock | src/utils/duration.ts:21-31 | "0:00" parses to 0. |
| Duration.ParseFormatRoundTrip | src/utils/duration.ts:1-41 | Parsing the formatted text gives back any non-negative whole number of seconds, and 0 for negative ones. |
| Duration.WordCount | src/utils/duration.ts:51 | The number of whitespace-separated words; stated by `WordCountZeroIff`. |
| Duration.EstimateDurationFromText | src/utils/duration.ts:47-59 | `estimateDurationFromText`; stated by `EstimateFacts`, `EstimateMonotone` and `SecondsForWordsNearest`. |
| Duration.WordCountZeroIff | src/utils/duration.ts:48-52 | A text has no words iff it is blank. |
| Duration.SecondsForWordsNearest | src/utils/duration.ts:45-56 | The estimate is (12w + 13) div 26, strictly within 0.5 of w*60/130 (never a tie). |
| Duration.EstimateMonotone | src/utils/duration.ts:47-59 | More words never give a shorter estimate. |
| Duration.EstimateFacts | src/utils/duration.ts:47-59 | Blank text gives 0. Other text has at least one word, and its estimate is positive iff it has two or more. |
| Duration.ValidateDurationInput | src/utils/duration.ts:61-76 | `validateDurationInput`; stated by `ValidateDurationFacts`. |
| Duration.ValidateDurationFacts | src/utils/duration.ts:61-76 | Accepted iff blank or parsed to at most 3600 s. A parse failure shows the parser's message, too long shows the one-hour message. The "positive" message can never appear. |
| TagColors.PaletteDistinct | src/utils/tagColors.ts:4-20 | Fifteen palette colours, pairwise distinct. |
| TagColors.FindExistingTagColor | src/utils/tagColors.ts:25-30 | A found colour is non-empty and belongs to a tag whose name matches up to case. |
| TagColors.FindExistingTagColorSpec | src/utils/tagColors.ts:25-30 | No matching tag gives null. Otherwise the result is the first match's colour, or null when that colour is empty. |
| TagColors.FindIgnoresCase | src/utils/tagColors.ts:25-30 | The lookup ignores the case of the name asked for. |
| TagColors.FindSameResult | src/utils/tagColors.ts:25-30 | Names matching the same tags look up the same colour. |
| TagColors.RandomTagColor | src/utils/tagColors.ts:35-37 | A random colour is a palette colour. |
| TagColors.GetTagColor | src/utils/tagColors.ts:42-45 | `getTagColor`; stated by `GetTagColorFacts`. |
| TagColors.GetTagColorFacts | src/utils/tagColors.ts:42-45 | An existing colour is kept. Otherwise the colour comes from the palette. |
| TagColors.AvailableColors | src/utils/tagColors.ts:51-52 | The palette without the colours existing tags use, in palette order; stated by `AvailableColorsMembers` and `AvailableColorsDistinct`. |
| TagColors.AvailableColorsMembers | src/utils/tagColors.ts:51-52 | Available colours are exactly the palette colours no existing tag uses. |
| TagColors.AvailableColorsDistinct | src/utils/tagColors.ts:51-52 | Available colours are pairwise distinct. |
| TagColors.Assign | src/utils/tagColors.ts:50-74 | The record `generateTagColors` builds and its final `colorIndex`; stated by `AssignKeys`, `AssignEntry`, `AssignColorsFromPalette` and `AssignDistinctNewColors`. |
| TagColors.GenerateTagColors | src/utils/tagColors.ts:50-74 | The loop returns the record the recursive assignment builds. |
| TagColors.AssignKeys | src/utils/tagColors.ts:50-74 | The record's keys are exactly the names. `colorIndex` ends at the number of names without an existing colour. |
| TagColors.AssignEntry | src/utils/tagColors.ts:57-71 | A name's colour is decided at its last occurrence: its existing colour, or the next available (then cycled palette) colour for the new names before it. |
| TagColors.AssignColorsFromPalette | src/utils/tagColors.ts:50-74 | Every assigned colour is a palette colour or an existing tag's colour. |
| TagColors.AssignDistinctNewColors | src/utils/tagColors.ts:50-74 | Distinct new names get distinct colours, unused by existing tags, while unused palette colours last. |
| JokeFilter.MatchesSearchTerm | src/utils/JokeFilter.ts:27-33 | `matchesSearchTerm`; stated by `SearchMatchIff`, `SearchMatchIncludes` and `SearchIgnoresCase`. |
| JokeFilter.MatchesTagFilter | src/utils/JokeFilter.ts:38-41 | `matchesTagFilter`: null or "" matches every joke, otherwise the joke must carry the tag; used by `FilterJokesFacts` and `HasActiveFiltersIff`. |
| JokeFilter.FilterJokes | src/utils/JokeFilter.ts:12-22 | `filterJokes`; stated by `FilterJokesFacts` and `NoFilterKeepsAll`. |
| JokeFilter.FilterJokesFacts | src/utils/JokeFilter.ts:12-22 | The result is a subsequence: a joke is in it iff it is in the list and passes both tests, and every occurrence of a passing joke is kept. |
| JokeFilter.NoFilterKeepsAll | src/utils/JokeFilter.ts:12-41 | A blank term and no tag filter keep every joke. |
| JokeFilter.SearchMatchIncludes | src/utils/JokeFilter.ts:27-33 | For a non-blank term, the test for non-empty content makes no difference. |
| JokeFilter.SearchMatchIff | src/utils/JokeFilter.ts:27-33 | A non-blank term matches iff, lower-cased, it occurs in the lower-cased name or content. |
| JokeFilter.SearchIgnoresCase | src/utils/JokeFilter.ts:27-33 | Search ignores the case of the term. |
| JokeFilter.ActiveFilters | src/utils/JokeFilter.ts:46-76 | The list `getActiveFilters` builds; stated by `ActiveFiltersShape`. |
| JokeFilter.GetActiveFilters | src/utils/JokeFilter.ts:46-76 | The two pushes give the list of active filters. |
| JokeFilter.ActiveFiltersShape | src/utils/JokeFilter.ts:46-76 | A search entry is present iff the term is non-blank, a tag entry iff the tag filter is truthy. At most one of each, search first. |
| JokeFilter.HasActiveFilters | src/utils/JokeFilter.ts:81-83 | `hasActiveFilters`; stated by `HasActiveFiltersIff`. |
| JokeFilter.HasActiveFiltersIff | src/utils/JokeFilter.ts:81-83 | Active iff the filter list is non-empty or the tag filter is "". That filter filters nothing. Inactive options keep every joke. |
| JokeSorter.GetSortValue | src/utils/JokeSorter.ts:29-40 | The sort key: the name, `rating \|\| 0` or `duration \|\| 0`; ordered by `KeyOrder`. |
| JokeSorter.Compare | src/utils/JokeSorter.ts:16-23 | The comparator's -1/0/1; stated by `BeforeIff`, `TiedIffSameKey` and `BeforeIsStrictWeakOrder`. |
| JokeSorter.BeforeIff | src/utils/JokeSorter.ts:15-24 | Ascending puts the smaller key first, descending the larger. |
| JokeSorter.ValueLessAsymmetric | src/utils/JokeSorter.ts:20-21 | Key `<` is asymmetric. |
| JokeSorter.KeyOrder | src/utils/JokeSorter.ts:29-40 | Keys of one option form a strict total order. |
| JokeSorter.TiedIffSameKey | src/utils/JokeSorter.ts:19-22 | The comparator returns 0 iff the keys are equal. |
| JokeSorter.BeforeIsStrictWeakOrder | src/utils/JokeSorter.ts:16-23 | The comparator is a strict weak order. |
| JokeSorter.SortedJokes | src/utils/JokeSorter.ts:15-24 | What `sortJokes` returns; stated by `SortedJokesFacts`. |
| JokeSorter.SortJokes | src/utils/JokeSorter.ts:15-24 | Sorting a fresh copy in place gives the stable sort. The caller's list is untouched. |
| JokeSorter.SortedJokesFacts | src/utils/JokeSorter.ts:15-24 | The result is a permutation with keys in order for the direction. Equal keys keep input order. |
| JokeSorter.GetNextSortDirection | src/utils/JokeSorter.ts:45-50 | `getNextSortDirection`; stated by `NextSortDirectionFacts`. |
| JokeSorter.GetSortIndicator | src/utils/JokeSorter.ts:55-58 | `getSortIndicator`; stated by `SortIndicatorFacts`. |
| JokeSorter.NextSortDirectionFacts | src/utils/JokeSorter.ts:45-50 | The same option flips the direction, so choosing it twice restores it. Another option starts ascending. |
| JokeSorter.SortIndicatorFacts | src/utils/JokeSorter.ts:55-58 | Only the current option shows an arrow, and the two directions show different arrows. |
| JokeListUtils.ProcessJokes | src/utils/JokeListUtils.ts:14-17 | The jokes are filtered, then sorted. |
| JokeListUtils.ProcessedJokesFacts | src/utils/JokeListUtils.ts:14-17 | The result is a permutation of the filtered subsequence, in key order for the direction. |
| JokeListUtils.CalculateStats | src/utils/JokeListUtils.ts:22-34 | `calculateStats`; stated by `ListStatsFacts` and `ListStatsPermutation`. |
| JokeListUtils.ListStatsFacts | src/utils/JokeListUtils.ts:22-34 | The count is the length and the total is non-negative. The average is the rating sum (unrated as 0) over the count, 0 when empty, and stays within any bounds on `rating \|\| 0`. |
| JokeListUtils.ListStatsPermutation | src/utils/JokeListUtils.ts:22-34 | The statistics do not depend on order. |
| JokeListUtils.FindTagById | src/utils/JokeListUtils.ts:44 | A found tag is in the list and has the id. The result is null iff no tag has it. |
| JokeListUtils.FindTagByIdFirst | src/utils/JokeListUtils.ts:44 | `find` returns the first tag with the id. |
| JokeListUtils.Describe | src/utils/JokeListUtils.ts:42-51 | One entry of the mapping; stated by `DescribeFacts`. |
| JokeListUtils.DescribeFacts | src/utils/JokeListUtils.ts:42-51 | Kind and value are kept, and search entries are unchanged. A tag entry shows the found tag's name (the id if the name is empty or no tag is found) and the tag's colour, if any. |
| JokeListUtils.GetActiveFilters | src/utils/JokeListUtils.ts:39-53 | `getActiveFilters` with tag names resolved; stated by `GetActiveFiltersFacts`. |
| JokeListUtils.GetActiveFiltersFacts | src/utils/JokeListUtils.ts:39-53 | One described entry per active filter, same order, kinds and values. |
| JokeListUtils.ListHasActiveFilters | src/utils/JokeListUtils.ts:58-60 | `hasActiveFilters`; stated by `DelegatesAgree`. |
| JokeListUtils.ListSortIndicator | src/utils/JokeListUtils.ts:65-71 | `getSortIndicator` on an option name; stated by `DelegatesAgree`. |
| JokeListUtils.DelegatesAgree | src/utils/JokeListUtils.ts:58-71 | Both helpers agree with the filter's and the sorter's own. |
| FileImport.ParseInt | src/utils/fileImport.ts:27 | `parseInt(value)`: leading whitespace, a sign and the longest digit prefix, NaN without digits; stated by `ParseIntOfInt` and `ParseIntOfDigits`. |
| FileImport.ParseFloat | src/utils/fileImport.ts:33 | `parseFloat(value)` over sign, digits and a decimal fraction; stated by `ParseFloatOfNat`. |
| FileImport.ParseIntOfInt | src/utils/fileImport.ts:27 | `parseInt` reads an integer's decimal text back as that integer. |
| FileImport.ParseIntOfDigits | src/utils/fileImport.ts:27 | Digits, with or without a minus, read as their value. |
| FileImport.ParseFloatOfNat | src/utils/fileImport.ts:33 | `parseFloat` reads a natural number's decimal text back as that number. |
| FileImport.ClampRating | src/utils/fileImport.ts:28 | The clamp lands in [1, 5] and leaves values already in range unchanged. |
| FileImport.ParseRating | src/utils/fileImport.ts:25-29 | `parseRating`; stated by `ParseRatingFacts` and `ParseRatingOfText`. |
| FileImport.ParseRatingFacts | src/utils/fileImport.ts:25-29 | Absent iff the cell is missing, empty or not numeric. Otherwise the number clamped into [1, 5]. "1".."5" read as themselves. |
| FileImport.ParseRatingOfText | src/utils/fileImport.ts:25-29 | Text whose `parseInt` value is in [1, 5] reads as that value. |
| FileImport.ParseDuration | src/utils/fileImport.ts:31-35 | `parseDuration`; stated by `ParseDurationFacts` and `ParseDurationOfText`. |
| FileImport.ParseDurationFacts | src/utils/fileImport.ts:31-35 | Absent iff the cell is missing, empty, not numeric or not positive. Otherwise the number, unchanged. |
| FileImport.ParseDurationOfText | src/utils/fileImport.ts:31-35 | Text with a positive `parseFloat` value reads as that value. |
| FileImport.ParseTags | src/utils/fileImport.ts:37-40 | `parseTags`; stated by `ParseTagsFacts` and `ParseTagsOfJoined`. |
| FileImport.ParseTagsFacts | src/utils/fileImport.ts:37-40 | Every tag is non-empty, comma-free and trimmed. |
| FileImport.ParseTagsOfJoined | src/utils/fileImport.ts:37-40 | Non-empty, trimmed, comma-free tags joined with ", " parse back to themselves. |
| FileImport.SplitJoinedTags | src/utils/fileImport.ts:39 | Tags joined with ", " split on ',' into the first tag, then each later tag after one space. |
| FileImport.ValidateAndTransformRow | src/utils/fileImport.ts:42-68 | `validateAndTransformRow`, with a thrown TypeError as its own outcome; stated by `ValidateRejected`, `ValidateAccepted` and `TextRowNeverThrows`. |
| FileImport.ValidateRejected | src/utils/fileImport.ts:42-68 | Rejected iff the name is missing or blank, with "Row index+1: Joke name is required". Only a numeric name, content or tags cell throws. |
| FileImport.ValidateAccepted | src/utils/fileImport.ts:42-68 | An accepted row has the trimmed, non-empty name. Content is present iff non-blank text, and then trimmed. Rating, duration and tags are as parsed. |
| FileImport.TextRowNeverThrows | src/utils/fileImport.ts:42-68 | Rows of text or missing cells never throw. |
| FileImport.CollectFacts | src/utils/fileImport.ts:79-86 | The jokes are those of accepted rows and the errors those of rejected rows, each in row order. Without throws, every row lands in one of them. |
| FileImport.CollectCount | src/utils/fileImport.ts:79-86 | Without throws, jokes plus errors equal the rows. |
| FileImport.CsvImport | src/utils/fileImport.ts:70-96 | What `parseCSV` resolves with; stated by `CsvImportFacts`. |
| FileImport.CsvComplete | src/utils/fileImport.ts:75-93 | The `complete` callback resolves with the row results followed by the parse errors. |
| FileImport.CsvImportFacts | src/utils/fileImport.ts:75-93 | Every CSV row gives a joke or an error. Errors name row k+1 exactly when the name is missing, and "Parse error: …" entries follow the row errors in order. |
| FileImport.FindColumn | src/utils/fileImport.ts:132-136 | A found column has that name. None means no column has it. |
| FileImport.NormalizeHeaderIff | src/utils/fileImport.ts:130-136 | A text header selects a column iff, lower-cased and trimmed, it is the column's name. Case does not matter. |
| FileImport.FillRow | src/utils/fileImport.ts:129-137 | The `forEach` over the headers builds the mapped row, or fails on a numeric header. |
| FileImport.NoFieldsAfterThrow | src/utils/fileImport.ts:129-137 | Once a header throws, the whole row mapping does. |
| FileImport.FillFieldsField | src/utils/fileImport.ts:129-137 | With no throwing key, a field holds the cell under the last key selecting it, and is missing if none does. |
| FileImport.MapRowField | src/utils/fileImport.ts:129-137 | With no numeric header, a field holds the cell of the last column whose header selects it. Other columns are ignored. |
| FileImport.SetFieldField | src/utils/fileImport.ts:132-136 | An assignment changes only the selected field. |
| FileImport.ExcelRow | src/utils/fileImport.ts:126-139 | One pass of the loop body maps the row, then validates it as row i-1. |
| FileImport.ExcelRowLoop | src/utils/fileImport.ts:125-147 | The loop resolves with the collected rows, or rejects at the first throwing row. |
| FileImport.ExcelRowsFail | src/utils/fileImport.ts:125-150 | Any throwing data row rejects the whole import. |
| FileImport.ExcelImport | src/utils/fileImport.ts:98-156 | What `parseExcel` settles to; stated by `ExcelImportFacts` and `ExcelRowsFail`. |
| FileImport.ExcelImportFacts | src/utils/fileImport.ts:107-147 | No sheet gives "No sheets found in Excel file", an empty sheet "Excel file is empty". With all-text cells, every data row becomes a joke or an error naming its row. |
| FileImport.ExcelTextResults | src/utils/fileImport.ts:125-145 | With text cells no data row throws, and a rejected row names its sheet row. |
| FileImport.ExcelTextRow | src/utils/fileImport.ts:126-139 | The same for one row. |
| FileImport.Extension | src/utils/fileImport.ts:159 | The lower-cased text after the last dot; stated by `ExtensionOfDotted`. |
| FileImport.ExtensionOfDotted | src/utils/fileImport.ts:159 | The extension of `base.ext` is `ext` lower-cased. |
| FileImport.SplitLast | src/utils/fileImport.ts:159 | `pop()` of the split is the text after the last dot. |
| FileImport.ImportJokes | src/utils/fileImport.ts:158-171 | `importJokes`; stated by `ImportDispatch`. |
| FileImport.ImportDispatch | src/utils/fileImport.ts:158-171 | `.csv` takes the CSV path and `.xlsx`/`.xls` the Excel path, in any case. Anything else gives no jokes and the unsupported-format error. |
| FileExport.GetTagNames | src/utils/fileExport.ts:31-36 | `getTagNames`; stated by `TagNameListFacts`, `TagNamesAreTagNames` and `GetTagNamesEmpty`. |
| FileExport.TagNameFacts | src/utils/fileExport.ts:33 | An id resolves to its first tag's name, or to "" when no tag has it. A non-empty result is the name of a tag with that id. |
| FileExport.TagNameListFacts | src/utils/fileExport.ts:31-36 | Names keep the order of the ids. A name is listed iff it is the non-empty name some id resolves to. |
| FileExport.TagNamesAreTagNames | src/utils/fileExport.ts:31-36 | Every listed name is non-empty and belongs to a tag whose id is among the ids. |
| FileExport.GetTagNamesEmpty | src/utils/fileExport.ts:31-36 | The joined text is empty iff no name survives. |
| FileExport.JokeToExportRow | src/utils/fileExport.ts:38-44 | `jokeToExportRow`; stated by `ExportRowFacts` and `ExportImportRoundTrip`. |
| FileExport.ExportRowFacts | src/utils/fileExport.ts:38-44 | The name is copied. Each optional column is empty iff the value is missing (or, for content, empty). Otherwise it reads back through `parseInt`/`parseFloat` as the value. |
| FileExport.ExportImportRoundTrip | src/utils/fileExport.ts:38-44 | A joke with trimmed name and content, rating in [1, 5], positive duration and clean tag names exports to a row the importer accepts as the same joke, tags as names. |
| FileExport.RoundTripContent | src/utils/fileExport.ts:40 | The content cell is non-blank iff the content is non-empty, and then trims to it. |
| FileExport.RoundTripNumbers | src/utils/fileExport.ts:41-42 | Rating and duration cells parse back to the values. |
| FileExport.RoundTripTags | src/utils/fileExport.ts:43 | The tags cell parses back to the tag names. |
| FileExport.SanitizeFileName | src/utils/fileExport.ts:63 | `replace(/[^a-z0-9]/gi, '_')`; stated by `SanitizeFileNameFacts`. |
| FileExport.SanitizeFileNameFacts | src/utils/fileExport.ts:63 | Same length. Letters and digits are kept and everything else becomes '_'. Idempotent, with no dot left. |
| FileExport.CsvFileNameImports | src/utils/fileExport.ts:63 | The exported setlist file name has extension "csv", so it imports through the CSV path. |
| FileExport.MetaParts | src/utils/fileExport.ts:92-96 | The metadata parts; stated by `MetaPartsFacts`. |
| FileExport.MetaPartsFacts | src/utils/fileExport.ts:92-96 | A part is present iff its value is truthy and carries that value. Order is rating, duration, tags, at most three. |
| FileExport.CollectMetaParts | src/utils/fileExport.ts:92-96 | The pushes give the texts of the parts. |
| FileExport.JokeParagraphs | src/utils/fileExport.ts:69-108 | The paragraph texts of `createJokeParagraphs`; stated by `JokeParagraphsFacts`. |
| FileExport.CreateJokeParagraphs | src/utils/fileExport.ts:69-108 | The pushes give the name, content and metadata paragraphs. |
| FileExport.JokeParagraphsFacts | src/utils/fileExport.ts:69-108 | One to three paragraphs: the name, numbered from 1 in a setlist; content only when non-empty; a metadata line iff something is truthy. The shown duration parses back. |
| FileExport.ReduceDuration | src/utils/fileExport.ts:136 | The `reduce` of `duration \|\| 0`; stated by `ReduceDurationTotal`. |
| FileExport.ReduceDurationTotal | src/utils/fileExport.ts:136 | The setlist total equals the list statistics' total and is non-negative. |

## Left out

- `Math.random`: replaced by parameters, one value per call, each in [0, 1). Probabilistic claims (variety, likelihood of a joke being chosen) are not modelled.
- Numbers are whole seconds and integer ratings for jokes and setlists. Fractional durations (formatting of `seconds % 60` with a fraction) are not modelled; import keeps its numbers as reals.
- JavaScript numbers are IEEE-754 doubles, while the model computes exactly with unbounded integers and reals. Rounding is not modelled: `parseInt` of more than 2^53, `parseFloat("0.1")` and the score `rating * 10 + Math.random() * 0.5` are exact here. No stated property depends on that rounding.
- Text is ASCII: `trim`, `\s` and `toLowerCase` treat only ASCII whitespace and letters specially. String `<` compares characters by code, not UTF-16 code units.
- `parseFloat` is modelled for sign, digits and a decimal fraction. Exponents, `Infinity` and hexadecimal are not modelled.
- Excel cells are missing, text or numbers. Booleans, dates and other cell objects are not modelled.
- Papa Parse, SheetJS, `FileReader`, `Blob`, the DOM download and the docx library are not part of this model. The CSV import starts from the parsed rows and errors. The Excel import starts from the sheet names and `sheet_to_json` rows. Export stops at the row records and paragraph texts.
- FileExport.ExportImportRoundTrip: assumes the CSV writer and reader pass the five cells through unchanged (quoting by `Papa.unparse` and reading with `header: true` are not modelled).
- The document headers, the "jokes exported" line and the average rating with `toFixed(1)` in the setlist document are not modelled; only its total duration is.
- Paragraph styling (bold, sizes, spacing, colours) is not modelled: paragraphs are their texts.
- An error thrown inside Papa Parse's `complete` callback is not modelled. CSV cells are text, so validation never throws there (`TextRowNeverThrows`).
- The `FileReader` error path of `parseExcel` ("Failed to read Excel file") and a workbook that fails to read are not modelled. Only the `Failed` outcome of a throwing row is.
- Records with keys such as `__proto__`, and the key order of the objects returned by `generateTagColors`, are not modelled; the record is a map.
- Setlist persistence, the UI layers, `index.ts` re-exports and the `downloadFile` helper are not part of this model.
