/** `JokeFilter`: the joke list's text search and tag filter, and the
    descriptions of the filters in force. */
module JokeFilter {
  import opened Wrappers
  import opened Seqs
  import opened Text
  import opened Jokes

  /** `FilterOptions`; `selectedTagFilter` is a tag id or null. */
  datatype FilterOptions = FilterOptions(searchTerm: string, selectedTagFilter: Option<string>)

  /** `matchesSearchTerm`: a blank term matches everything; otherwise the
      lower-cased term, untrimmed, must occur in the lower-cased name or in
      the lower-cased content when there is non-empty content. */
  predicate MatchesSearchTerm(joke: Joke, searchTerm: string) {
    if IsBlank(searchTerm) then true
    else
      var term := ToLower(searchTerm);
      || Includes(ToLower(joke.name), term)
      || (joke.content.Some? && joke.content.value != "" && Includes(ToLower(joke.content.value), term))
  }

  /** `matchesTagFilter`: no tag filter (null or the empty string) matches
      everything; otherwise the joke must carry the tag. */
  predicate MatchesTagFilter(joke: Joke, selectedTagFilter: Option<string>) {
    if selectedTagFilter.None? || selectedTagFilter.value == "" then true
    else selectedTagFilter.value in joke.tags
  }

  predicate Matches(options: FilterOptions, joke: Joke) {
    MatchesSearchTerm(joke, options.searchTerm) && MatchesTagFilter(joke, options.selectedTagFilter)
  }

  /** `filterJokes` */
  function FilterJokes(jokes: seq<Joke>, options: FilterOptions): seq<Joke> {
    Filter(jokes, joke => Matches(options, joke))
  }

  /** The result is the subsequence of the jokes that pass both tests, every
      occurrence of such a joke kept. */
  lemma FilterJokesFacts(jokes: seq<Joke>, options: FilterOptions)
    ensures var r := FilterJokes(jokes, options);
      && IsSubsequence(r, jokes)
      && (forall j :: j in r <==> j in jokes && Matches(options, j))
      && (forall j :: j in jokes && Matches(options, j) ==> multiset(r)[j] == multiset(jokes)[j])
  {
    FilterIsSubsequence(jokes, joke => Matches(options, joke));
  }

  /** With a blank search term and no tag filter every joke is kept. */
  lemma NoFilterKeepsAll(jokes: seq<Joke>, options: FilterOptions)
    requires IsBlank(options.searchTerm)
    requires options.selectedTagFilter.None? || options.selectedTagFilter == Some("")
    ensures FilterJokes(jokes, options) == jokes
  {
    FilterAll(jokes, joke => Matches(options, joke));
  }

  /** A non-blank term matches exactly when it occurs, after lower-casing
      both, at some offset of the name or of the content. */
  lemma SearchMatchIff(joke: Joke, searchTerm: string)
    requires !IsBlank(searchTerm)
    ensures var term := ToLower(searchTerm);
      MatchesSearchTerm(joke, searchTerm) <==>
        || (exists i :: OccursAt(ToLower(joke.name), term, i))
        || (joke.content.Some? && exists i :: OccursAt(ToLower(joke.content.value), term, i))
  {
    var term := ToLower(searchTerm);
    SearchMatchIncludes(joke, searchTerm);
    IncludesIff(ToLower(joke.name), term);
    if joke.content.Some? {
      IncludesIff(ToLower(joke.content.value), term);
    }
  }

  /** For a non-blank term, the test for non-empty content is immaterial. */
  lemma SearchMatchIncludes(joke: Joke, searchTerm: string)
    requires !IsBlank(searchTerm)
    ensures var term := ToLower(searchTerm);
      MatchesSearchTerm(joke, searchTerm) <==>
        || Includes(ToLower(joke.name), term)
        || (joke.content.Some? && Includes(ToLower(joke.content.value), term))
  {
    assert searchTerm != [];
  }

  /** Search ignores the case of the term. */
  lemma SearchIgnoresCase(joke: Joke, searchTerm: string)
    ensures MatchesSearchTerm(joke, ToLower(searchTerm)) == MatchesSearchTerm(joke, searchTerm)
  {
    ToLowerBlank(searchTerm);
    ToLowerIdempotent(searchTerm);
  }

  // ---------------------------------------------------------------- active filters

  datatype FilterKind = Search | TagFilter

  /** One entry of the active-filter list; `tagColor` is absent unless set. */
  datatype ActiveFilter = ActiveFilter(kind: FilterKind, value: string, displayValue: string, tagColor: Option<string>)

  function SearchEntry(searchTerm: string): ActiveFilter {
    ActiveFilter(Search, searchTerm, "Search: \"" + searchTerm + "\"", None)
  }

  function TagEntry(tagId: string): ActiveFilter {
    ActiveFilter(TagFilter, tagId, "Tag: " + tagId, None)
  }

  /** Whether the tag filter is set and non-empty (truthy). */
  predicate TagFilterSet(options: FilterOptions) {
    options.selectedTagFilter.Some? && options.selectedTagFilter.value != ""
  }

  /** The list `getActiveFilters` builds. */
  function ActiveFilters(options: FilterOptions): seq<ActiveFilter> {
    (if !IsBlank(options.searchTerm) then [SearchEntry(options.searchTerm)] else [])
    + (if TagFilterSet(options) then [TagEntry(options.selectedTagFilter.value)] else [])
  }

  /** `getActiveFilters` */
  method GetActiveFilters(options: FilterOptions) returns (activeFilters: seq<ActiveFilter>)
    ensures activeFilters == ActiveFilters(options)
  {
    activeFilters := [];
    if !IsBlank(options.searchTerm) {
      activeFilters := activeFilters + [SearchEntry(options.searchTerm)];
    }
    assert activeFilters == if !IsBlank(options.searchTerm) then [SearchEntry(options.searchTerm)] else [];
    if options.selectedTagFilter.Some? && options.selectedTagFilter.value != "" {
      activeFilters := activeFilters + [TagEntry(options.selectedTagFilter.value)];
    }
  }

  /** There is a search entry exactly when the term is non-blank, a tag entry
      exactly when the tag filter is set, at most one of each, search first. */
  lemma ActiveFiltersShape(options: FilterOptions)
    ensures var r := ActiveFilters(options);
      && |r| <= 2
      && (|r| == (if !IsBlank(options.searchTerm) then 1 else 0) + (if TagFilterSet(options) then 1 else 0))
      && ((exists k :: 0 <= k < |r| && r[k].kind == Search) <==> !IsBlank(options.searchTerm))
      && ((exists k :: 0 <= k < |r| && r[k].kind == TagFilter) <==> TagFilterSet(options))
      && (!IsBlank(options.searchTerm) ==> r[0] == SearchEntry(options.searchTerm))
      && (TagFilterSet(options) ==> r[|r| - 1] == TagEntry(options.selectedTagFilter.value))
  {
    var r := ActiveFilters(options);
    if !IsBlank(options.searchTerm) {
      assert r[0].kind == Search;
    }
    if TagFilterSet(options) {
      assert r[|r| - 1].kind == TagFilter;
    }
  }

  /** `hasActiveFilters` */
  predicate HasActiveFilters(options: FilterOptions) {
    |Trim(options.searchTerm)| > 0 || options.selectedTagFilter.Some?
  }

  /** Filters are reported active exactly when the list of active filters is
      non-empty, except for an empty-string tag filter, which counts as active
      although it is not listed and keeps every joke. */
  lemma HasActiveFiltersIff(options: FilterOptions, jokes: seq<Joke>)
    ensures HasActiveFilters(options) <==> ActiveFilters(options) != [] || options.selectedTagFilter == Some("")
    ensures options.selectedTagFilter == Some("") ==>
      FilterJokes(jokes, options) == FilterJokes(jokes, options.(selectedTagFilter := None))
    ensures !HasActiveFilters(options) ==> FilterJokes(jokes, options) == jokes
  {
    var plain := options.(selectedTagFilter := None);
    if options.selectedTagFilter == Some("") {
      assert forall j :: Matches(options, j) == Matches(plain, j);
      FilterSame(jokes, joke => Matches(options, joke), joke => Matches(plain, joke));
    }
    if !HasActiveFilters(options) {
      NoFilterKeepsAll(jokes, options);
    }
  }
}
