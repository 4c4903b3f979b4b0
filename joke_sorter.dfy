/** `JokeSorter`: the joke list's keyed, stable sort in either direction, and
    the helpers for toggling the direction and showing it. */
module JokeSorter {
  import opened Seqs
  import opened Text
  import opened Sorting
  import opened Jokes

  datatype SortOption = ByName | ByRating | ByDuration
  datatype SortDirection = Asc | Desc
  datatype SortOptions = SortOptions(sortBy: SortOption, sortDirection: SortDirection)

  /** A sort key: `getSortValue` returns a string or a number. */
  datatype SortValue = Text(s: string) | Number(n: int)

  /** `getSortValue` */
  function GetSortValue(joke: Joke, sortBy: SortOption): SortValue {
    match sortBy
    case ByName => Text(ToLower(joke.name))
    case ByRating => Number(RatingOrZero(joke))
    case ByDuration => Number(DurationOrZero(joke))
  }

  /** JavaScript's `<` on two keys of the same kind. */
  predicate ValueLess(x: SortValue, y: SortValue) {
    match (x, y)
    case (Text(a), Text(b)) => StringLess(a, b)
    case (Number(a), Number(b)) => a < b
    case _ => false
  }

  /** The comparator passed to `sort`. */
  function Compare(options: SortOptions, a: Joke, b: Joke): int {
    var aValue, bValue := GetSortValue(a, options.sortBy), GetSortValue(b, options.sortBy);
    if ValueLess(aValue, bValue) then (if options.sortDirection == Asc then -1 else 1)
    else if ValueLess(bValue, aValue) then (if options.sortDirection == Asc then 1 else -1)
    else 0
  }

  /** `sort` places `a` before `b` when the comparator is negative. */
  function Before(options: SortOptions): (Joke, Joke) -> bool {
    (a: Joke, b: Joke) => Compare(options, a, b) < 0
  }

  /** Ascending puts the smaller key first, descending the larger. */
  lemma BeforeIff(options: SortOptions, a: Joke, b: Joke)
    ensures var aValue, bValue := GetSortValue(a, options.sortBy), GetSortValue(b, options.sortBy);
      Before(options)(a, b) <==>
        if options.sortDirection == Asc then ValueLess(aValue, bValue) else ValueLess(bValue, aValue)
  {
    var aValue, bValue := GetSortValue(a, options.sortBy), GetSortValue(b, options.sortBy);
    if ValueLess(aValue, bValue) {
      ValueLessAsymmetric(aValue, bValue);
    }
  }

  lemma ValueLessAsymmetric(x: SortValue, y: SortValue)
    requires ValueLess(x, y)
    ensures !ValueLess(y, x)
  {
    if x.Text? {
      if StringLess(y.s, x.s) {
        StringLessTransitive(x.s, y.s, x.s);
        StringLessIrreflexive(x.s);
      }
    }
  }

  /** Keys for one option are compared as a strict total order. */
  lemma KeyOrder(sortBy: SortOption, a: Joke, b: Joke, c: Joke)
    ensures var ka, kb, kc := GetSortValue(a, sortBy), GetSortValue(b, sortBy), GetSortValue(c, sortBy);
      && !ValueLess(ka, ka)
      && (ValueLess(ka, kb) && ValueLess(kb, kc) ==> ValueLess(ka, kc))
      && (ka != kb ==> ValueLess(ka, kb) || ValueLess(kb, ka))
  {
    if sortBy == ByName {
      var x, y, z := ToLower(a.name), ToLower(b.name), ToLower(c.name);
      StringLessIrreflexive(x);
      if StringLess(x, y) && StringLess(y, z) {
        StringLessTransitive(x, y, z);
      }
      if x != y {
        StringLessTotal(x, y);
      }
    }
  }

  /** Two jokes compare equal exactly when their keys are equal. */
  lemma TiedIffSameKey(options: SortOptions, a: Joke, b: Joke)
    ensures Tied(Before(options), a, b) <==> GetSortValue(a, options.sortBy) == GetSortValue(b, options.sortBy)
  {
    BeforeIff(options, a, b);
    BeforeIff(options, b, a);
    KeyOrder(options.sortBy, a, b, a);
  }

  /** The comparator is a strict weak order, so the stable sort is well defined. */
  lemma BeforeIsStrictWeakOrder(options: SortOptions)
    ensures StrictWeakOrder(Before(options))
  {
    var before := Before(options);
    forall a, b, c
      ensures !before(a, a)
      ensures before(a, b) && before(b, c) ==> before(a, c)
      ensures before(a, c) ==> before(a, b) || before(b, c)
    {
      BeforeIff(options, a, a);
      BeforeIff(options, a, b);
      BeforeIff(options, b, c);
      BeforeIff(options, a, c);
      KeyOrder(options.sortBy, a, b, c);
      KeyOrder(options.sortBy, c, b, a);
      KeyOrder(options.sortBy, b, a, c);
      KeyOrder(options.sortBy, b, c, a);
    }
  }

  /** What `sortJokes` returns. */
  function SortedJokes(jokes: seq<Joke>, options: SortOptions): seq<Joke> {
    Sort(jokes, Before(options))
  }

  /** `sortJokes`: sorts a copy of the list, so the caller's list is untouched. */
  method SortJokes(jokes: seq<Joke>, options: SortOptions) returns (sorted: seq<Joke>)
    ensures sorted == SortedJokes(jokes, options)
  {
    var copy := new Joke[|jokes|](i requires 0 <= i < |jokes| => jokes[i]);
    assert copy[..] == jokes;
    SortInPlace(copy, Before(options));
    sorted := copy[..];
  }

  /** The sorted list is a permutation of the input whose keys are in order
      for the direction, and jokes with equal keys keep their input order. */
  lemma SortedJokesFacts(jokes: seq<Joke>, options: SortOptions)
    ensures var r := SortedJokes(jokes, options);
      && multiset(r) == multiset(jokes)
      && (forall i, j :: 0 <= i < j < |r| ==>
            var ki, kj := GetSortValue(r[i], options.sortBy), GetSortValue(r[j], options.sortBy);
            if options.sortDirection == Asc then !ValueLess(kj, ki) else !ValueLess(ki, kj))
      && (forall x :: TiedWith(r, x, Before(options)) == TiedWith(jokes, x, Before(options)))
  {
    var r := SortedJokes(jokes, options);
    BeforeIsStrictWeakOrder(options);
    SortPermutes(jokes, Before(options));
    SortSorted(jokes, Before(options));
    forall i, j | 0 <= i < j < |r|
      ensures var ki, kj := GetSortValue(r[i], options.sortBy), GetSortValue(r[j], options.sortBy);
        if options.sortDirection == Asc then !ValueLess(kj, ki) else !ValueLess(ki, kj)
    {
      BeforeIff(options, r[j], r[i]);
    }
    forall x
      ensures TiedWith(r, x, Before(options)) == TiedWith(jokes, x, Before(options))
    {
      SortStable(jokes, x, Before(options));
    }
  }

  /** `getNextSortDirection` */
  function GetNextSortDirection(currentSortBy: SortOption, newSortBy: SortOption, currentDirection: SortDirection): SortDirection {
    if currentSortBy == newSortBy then (if currentDirection == Asc then Desc else Asc)
    else Asc
  }

  /** Choosing the same option flips the direction, so choosing it twice
      restores it; choosing another option starts ascending. */
  lemma NextSortDirectionFacts(currentSortBy: SortOption, newSortBy: SortOption, currentDirection: SortDirection)
    ensures var next := GetNextSortDirection(currentSortBy, newSortBy, currentDirection);
      && (currentSortBy == newSortBy ==>
            next != currentDirection && GetNextSortDirection(newSortBy, newSortBy, next) == currentDirection)
      && (currentSortBy != newSortBy ==> next == Asc)
  {
  }

  /** `getSortIndicator` */
  function GetSortIndicator(sortBy: SortOption, currentSortBy: SortOption, direction: SortDirection): string {
    if sortBy != currentSortBy then ""
    else if direction == Asc then "↑" else "↓"
  }

  /** Only the current option shows an arrow, and the arrow tells the two
      directions apart. */
  lemma SortIndicatorFacts(sortBy: SortOption, currentSortBy: SortOption, direction: SortDirection)
    ensures GetSortIndicator(sortBy, currentSortBy, direction) == "" <==> sortBy != currentSortBy
    ensures sortBy == currentSortBy ==>
      GetSortIndicator(sortBy, currentSortBy, Asc) != GetSortIndicator(sortBy, currentSortBy, Desc)
  {
  }
}
