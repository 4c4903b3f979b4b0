/** `JokeListUtils`: the joke list's filter-then-sort pipeline, its summary
    statistics, and the active-filter descriptions with tag names resolved. */
module JokeListUtils {
  import opened Wrappers
  import opened Seqs
  import opened Text
  import opened Sorting
  import opened Jokes
  import opened JokeFilter
  import opened JokeSorter

  datatype JokeListOptions = JokeListOptions(filter: FilterOptions, sort: SortOptions)

  /** `processJokes` */
  method ProcessJokes(jokes: seq<Joke>, options: JokeListOptions) returns (processed: seq<Joke>)
    ensures processed == SortedJokes(FilterJokes(jokes, options.filter), options.sort)
  {
    var filteredJokes := FilterJokes(jokes, options.filter);
    processed := SortJokes(filteredJokes, options.sort);
  }

  /** The processed list is a permutation of the subsequence of jokes that
      pass the filter, in key order for the chosen direction. */
  lemma ProcessedJokesFacts(jokes: seq<Joke>, options: JokeListOptions)
    ensures var filtered := FilterJokes(jokes, options.filter);
      var r := SortedJokes(filtered, options.sort);
      && IsSubsequence(filtered, jokes)
      && (forall j :: j in filtered <==> j in jokes && Matches(options.filter, j))
      && multiset(r) == multiset(filtered)
      && (forall i, k :: 0 <= i < k < |r| ==>
            var ki, kk := GetSortValue(r[i], options.sort.sortBy), GetSortValue(r[k], options.sort.sortBy);
            if options.sort.sortDirection == Asc then !ValueLess(kk, ki) else !ValueLess(ki, kk))
  {
    FilterJokesFacts(jokes, options.filter);
    SortedJokesFacts(FilterJokes(jokes, options.filter), options.sort);
  }

  /** The list's statistics; `averageRating` is a real number. */
  datatype ListStats = ListStats(totalDuration: int, averageRating: real, count: nat)

  /** `calculateStats`: unrated jokes count as rating 0 in the average. */
  function CalculateStats(jokes: seq<Joke>): ListStats {
    var count := |jokes|;
    ListStats(
      TotalDuration(jokes),
      if count > 0 then RatingSum(jokes) as real / count as real else 0.0,
      count)
  }

  /** The count is the length, the total the sum of durations with missing
      counted as 0, and the average the rating sum over the count, 0 for an
      empty list; it lies within any bounds that hold for every
      `rating || 0`. */
  lemma ListStatsFacts(jokes: seq<Joke>, lo: int, hi: int)
    requires forall j :: j in jokes ==> lo <= RatingOrZero(j) <= hi
    ensures var st := CalculateStats(jokes);
      && st.count == |jokes|
      && st.totalDuration == TotalDuration(jokes) >= 0
      && (jokes == [] ==> st.averageRating == 0.0)
      && (jokes != [] ==> st.averageRating * |jokes| as real == RatingSum(jokes) as real)
      && (jokes != [] ==> lo as real <= st.averageRating <= hi as real)
  {
    TotalDurationNonNegative(jokes);
    if jokes != [] {
      assert forall i :: 0 <= i < |jokes| ==> jokes[i] in jokes;
      SumBounds(jokes, RatingOrZero, lo, hi);
      MeanBounds(RatingSum(jokes), |jokes|, lo, hi);
      assert CalculateStats(jokes).averageRating == RatingSum(jokes) as real / |jokes| as real;
    }
  }

  /** The statistics do not depend on the order of the list. */
  lemma ListStatsPermutation(a: seq<Joke>, b: seq<Joke>)
    requires multiset(a) == multiset(b)
    ensures CalculateStats(a) == CalculateStats(b)
  {
    TotalsPermutation(a, b);
    assert |a| == |multiset(a)| == |multiset(b)| == |b|;
  }

  // ---------------------------------------------------------------- active filters

  /** `availableTags.find(t => t.id === id)` */
  function FindTagById(availableTags: seq<Tag>, id: string): (r: Option<Tag>)
    ensures r.Some? ==> r.value in availableTags && r.value.id == id
    ensures r.None? <==> forall t :: t in availableTags ==> t.id != id
  {
    if availableTags == [] then None
    else if availableTags[0].id == id then Some(availableTags[0])
    else FindTagById(availableTags[1..], id)
  }

  /** One entry of `getActiveFilters`: with a tag list, a tag entry shows the
      name of the tag with its id (the raw id when there is none or its name
      is empty) and carries that tag's colour. */
  function Describe(filter: ActiveFilter, availableTags: Option<seq<Tag>>): ActiveFilter {
    if filter.kind == TagFilter && availableTags.Some? then
      var tag := FindTagById(availableTags.value, filter.value);
      var shown := if tag.Some? && tag.value.name != "" then tag.value.name else filter.value;
      filter.(displayValue := "Tag: " + shown, tagColor := if tag.Some? then Some(tag.value.color) else None)
    else filter
  }

  /** `getActiveFilters` */
  function GetActiveFilters(options: JokeListOptions, availableTags: Option<seq<Tag>>): seq<ActiveFilter> {
    Map(ActiveFilters(options.filter), f => Describe(f, availableTags))
  }

  /** A described entry keeps its kind and value. Search entries, and every
      entry when there is no tag list, are unchanged. A tag entry whose id no
      tag has shows the id and no colour; one whose tag is found shows the
      tag's name, when non-empty, and the tag's colour. */
  lemma DescribeFacts(filter: ActiveFilter, availableTags: Option<seq<Tag>>)
    ensures var r := Describe(filter, availableTags);
      && r.kind == filter.kind && r.value == filter.value
      && (filter.kind == Search || availableTags.None? ==> r == filter)
      && (filter.kind == TagFilter && availableTags.Some? && (forall t :: t in availableTags.value ==> t.id != filter.value) ==>
            r.displayValue == "Tag: " + filter.value && r.tagColor == None)
      && (forall t :: filter.kind == TagFilter && availableTags.Some? && FirstTagWithId(availableTags.value, filter.value, t) ==>
            r.displayValue == "Tag: " + (if t.name != "" then t.name else filter.value) && r.tagColor == Some(t.color))
  {
    if filter.kind == TagFilter && availableTags.Some? {
      FindTagByIdFirst(availableTags.value, filter.value);
    }
  }

  /** `t` is the first tag in the list with id `id`. */
  predicate FirstTagWithId(availableTags: seq<Tag>, id: string, t: Tag) {
    exists k :: 0 <= k < |availableTags| && availableTags[k] == t && t.id == id
      && forall m :: 0 <= m < k ==> availableTags[m].id != id
  }

  /** `find` returns the first tag with the id. */
  lemma {:induction false} FindTagByIdFirst(availableTags: seq<Tag>, id: string)
    ensures forall t :: FirstTagWithId(availableTags, id, t) ==> FindTagById(availableTags, id) == Some(t)
    decreases |availableTags|
  {
    if availableTags != [] && availableTags[0].id != id {
      var rest := availableTags[1..];
      FindTagByIdFirst(rest, id);
      forall t | FirstTagWithId(availableTags, id, t)
        ensures FirstTagWithId(rest, id, t)
      {
        var k :| 0 <= k < |availableTags| && availableTags[k] == t && t.id == id
          && forall m :: 0 <= m < k ==> availableTags[m].id != id;
        assert k > 0 && rest[k - 1] == t;
        assert forall m :: 0 <= m < k - 1 ==> rest[m] == availableTags[m + 1];
      }
    }
  }

  /** The described list has an entry per active filter, in the same order,
      with the same kinds and values; only tag entries can change. */
  lemma GetActiveFiltersFacts(options: JokeListOptions, availableTags: Option<seq<Tag>>)
    ensures var base := ActiveFilters(options.filter);
      var r := GetActiveFilters(options, availableTags);
      && |r| == |base|
      && (forall k :: 0 <= k < |r| ==>
            r[k].kind == base[k].kind && r[k].value == base[k].value && (base[k].kind == Search ==> r[k] == base[k]))
  {
    var base := ActiveFilters(options.filter);
    var r := GetActiveFilters(options, availableTags);
    forall k | 0 <= k < |r|
      ensures r[k].kind == base[k].kind && r[k].value == base[k].value && (base[k].kind == Search ==> r[k] == base[k])
    {
      assert r[k] == Describe(base[k], availableTags);
      DescribeFacts(base[k], availableTags);
    }
  }

  /** `hasActiveFilters` */
  predicate ListHasActiveFilters(options: JokeListOptions) {
    HasActiveFilters(options.filter)
  }

  /** `getSortIndicator`, whose `sortBy` is any string: only the name of the
      current option shows an arrow. */
  function ListSortIndicator(sortBy: string, options: JokeListOptions): string {
    if sortBy == OptionName(options.sort.sortBy) then
      GetSortIndicator(options.sort.sortBy, options.sort.sortBy, options.sort.sortDirection)
    else ""
  }

  /** The option's name as the string union spells it. */
  function OptionName(option: SortOption): string {
    match option
    case ByName => "name"
    case ByRating => "rating"
    case ByDuration => "duration"
  }

  /** The list helpers agree with the filter's and the sorter's own. */
  lemma DelegatesAgree(sortBy: SortOption, options: JokeListOptions)
    ensures ListHasActiveFilters(options) == HasActiveFilters(options.filter)
    ensures ListSortIndicator(OptionName(sortBy), options) ==
      GetSortIndicator(sortBy, options.sort.sortBy, options.sort.sortDirection)
  {
    assert OptionName(sortBy) == OptionName(options.sort.sortBy) ==> sortBy == options.sort.sortBy;
  }
}
