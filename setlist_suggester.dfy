/** The setlist suggestion engine: filter the pool by tag, score every joke,
    select by a time budget or by a count, optionally reorder by tag similarity,
    and compute statistics of the final selection.

    `Math.random` is not called: each selector receives the values that its
    calls to `Math.random` would return, one per joke in pool order, so every
    property below holds for every possible assignment of random values. */
module SetlistSuggester {
  import opened Wrappers
  import opened Seqs
  import opened Sorting
  import opened Jokes

  datatype Mode = ByDuration | ByQuantity

  datatype SuggestionConfig = SuggestionConfig(
    mode: Mode,
    targetDuration: int,   // seconds
    targetQuantity: int,
    filterTagIds: seq<string>,
    preferHigherRating: bool,
    groupByTags: bool)

  datatype SuggestionResult = SuggestionResult(jokes: seq<Joke>, totalDuration: int, averageRating: real)

  // ---------------------------------------------------------------- tag filter

  /** `joke.tags.some(tagId => filterTagIds.includes(tagId))` */
  predicate SharesTag(j: Joke, tagIds: seq<string>) {
    exists t | t in j.tags :: t in tagIds
  }

  predicate Keep(tagIds: seq<string>, j: Joke) {
    tagIds == [] || SharesTag(j, tagIds)
  }

  /** `filterByTags`: the pool itself when no tag is requested, otherwise every
      joke sharing at least one requested tag, in pool order. */
  function FilterByTags(jokes: seq<Joke>, tagIds: seq<string>): (r: seq<Joke>)
    ensures tagIds == [] ==> r == jokes
    ensures |r| <= |jokes|
    ensures IsSubsequence(r, jokes)
    ensures forall j :: j in r <==> j in jokes && Keep(tagIds, j)
    ensures forall j :: Keep(tagIds, j) ==> multiset(r)[j] == multiset(jokes)[j]
  {
    if tagIds == [] then
      SubsequenceReflexive(jokes);
      jokes
    else
      var keep := j => SharesTag(j, tagIds);
      FilterIsSubsequence(jokes, keep);
      Filter(jokes, keep)
  }

  // ---------------------------------------------------------------- scoring

  /** Values returned by `Math.random()`: each lies in [0, 1). */
  ghost predicate ValidDraws(draws: seq<real>) {
    forall i :: 0 <= i < |draws| ==> 0.0 <= draws[i] < 1.0
  }

  /** `scoreJoke` with `Math.random()` returning `draw`. */
  function ScoreJoke(j: Joke, preferHigherRating: bool, draw: real): (score: real)
    requires 0.0 <= draw < 1.0
    ensures !preferHigherRating ==> 0.0 <= score < 1.0
    ensures preferHigherRating ==>
      (RatingOrZero(j) * 10) as real <= score < (RatingOrZero(j) * 10) as real + 0.5
  {
    if !preferHigherRating then draw
    else (RatingOrZero(j) * 10) as real + draw * 0.5
  }

  /** With `preferHigherRating`, a strictly higher rating (unrated counting as 0)
      always wins, whatever the random values. */
  lemma HigherRatingScoresHigher(a: Joke, b: Joke, da: real, db: real)
    requires 0.0 <= da < 1.0 && 0.0 <= db < 1.0
    requires RatingOrZero(a) > RatingOrZero(b)
    ensures ScoreJoke(a, true, da) > ScoreJoke(b, true, db)
  {
  }

  /** An element of `scoredJokes`. */
  datatype Scored = Scored(joke: Joke, score: real)

  function JokeOf(e: Scored): Joke {
    e.joke
  }

  function JokesOf(s: seq<Scored>): seq<Joke> {
    Map(s, JokeOf)
  }

  /** `jokes.map(joke => ({ joke, score: scoreJoke(joke, preferHigherRating) }))` */
  function ScoreAll(jokes: seq<Joke>, preferHigherRating: bool, draws: seq<real>): (r: seq<Scored>)
    requires |draws| == |jokes| && ValidDraws(draws)
    ensures |r| == |jokes|
    ensures forall i :: 0 <= i < |r| ==> r[i] == Scored(jokes[i], ScoreJoke(jokes[i], preferHigherRating, draws[i]))
  {
    seq(|jokes|, i requires 0 <= i < |jokes| => Scored(jokes[i], ScoreJoke(jokes[i], preferHigherRating, draws[i])))
  }

  /** The comparator `(a, b) => b.score - a.score` is negative: `a` goes first. */
  predicate Outscores(a: Scored, b: Scored) {
    a.score > b.score
  }

  lemma OutscoresIsStrictWeakOrder()
    ensures StrictWeakOrder(Outscores)
  {
  }

  /** `scoredJokes` after `scoredJokes.sort((a, b) => b.score - a.score)`. */
  function ByScore(jokes: seq<Joke>, preferHigherRating: bool, draws: seq<real>): seq<Scored>
    requires |draws| == |jokes| && ValidDraws(draws)
  {
    Sort(ScoreAll(jokes, preferHigherRating, draws), Outscores)
  }

  /** With `preferHigherRating`, a score lies in [rating * 10, rating * 10 + 0.5). */
  predicate RatingScored(e: Scored, preferHigherRating: bool) {
    preferHigherRating ==>
      (RatingOrZero(e.joke) * 10) as real <= e.score < (RatingOrZero(e.joke) * 10) as real + 0.5
  }

  /** The sorted entries are a permutation of the scored pool in non-increasing
      score order; equal scores keep pool order; with `preferHigherRating` the
      ratings are non-increasing too. */
  lemma ByScoreOrder(jokes: seq<Joke>, preferHigherRating: bool, draws: seq<real>)
    requires |draws| == |jokes| && ValidDraws(draws)
    ensures var s := ByScore(jokes, preferHigherRating, draws);
      && |s| == |jokes|
      && multiset(s) == multiset(ScoreAll(jokes, preferHigherRating, draws))
      && multiset(JokesOf(s)) == multiset(jokes)
      && (forall i, j :: 0 <= i < j < |s| ==> s[i].score >= s[j].score)
      && (forall e :: TiedWith(s, e, Outscores) == TiedWith(ScoreAll(jokes, preferHigherRating, draws), e, Outscores))
      && (forall i :: 0 <= i < |s| ==> RatingScored(s[i], preferHigherRating))
      && (preferHigherRating ==>
            forall i, j :: 0 <= i < j < |s| ==> RatingOrZero(s[i].joke) >= RatingOrZero(s[j].joke))
  {
    var scored := ScoreAll(jokes, preferHigherRating, draws);
    var s := ByScore(jokes, preferHigherRating, draws);
    OutscoresIsStrictWeakOrder();
    SortPermutes(scored, Outscores);
    SortSorted(scored, Outscores);
    forall e
      ensures TiedWith(s, e, Outscores) == TiedWith(scored, e, Outscores)
    {
      SortStable(scored, e, Outscores);
    }
    MapPermutation(s, scored, JokeOf);
    assert JokesOf(scored) == jokes;
    forall i | 0 <= i < |s|
      ensures RatingScored(s[i], preferHigherRating)
    {
      assert s[i] in multiset(scored);
    }
  }

  // ---------------------------------------------------------------- selection by duration

  /** The loop of `selectByDuration` over the sorted entries `sorted`, from
      position `i` on, with `current` seconds already selected: jokes without a
      duration are skipped, a joke is taken when it keeps the total within
      `target + 30`, and the walk stops once the total reaches `target`. */
  function FillFrom(sorted: seq<Scored>, i: nat, target: int, current: int): (picked: seq<Scored>)
    requires i <= |sorted|
    decreases |sorted| - i
  {
    if i == |sorted| then []
    else
      var d := DurationOrZero(sorted[i].joke);
      if d == 0 || current + d > target + 30 then FillFrom(sorted, i + 1, target, current)
      else if current + d >= target then [sorted[i]]
      else [sorted[i]] + FillFrom(sorted, i + 1, target, current + d)
  }

  /** The entries the loop of `selectByDuration` keeps. */
  function Fill(sorted: seq<Scored>, target: int): seq<Scored> {
    FillFrom(sorted, 0, target, 0)
  }

  lemma JokesOfCons(e: Scored, rest: seq<Scored>)
    ensures JokesOf([e] + rest) == [e.joke] + JokesOf(rest)
  {
    MapConcat([e], rest, JokeOf);
  }

  /** The seconds the entries `p` add up to, summed from the front as the walk does. */
  function Seconds(p: seq<Scored>): int {
    if p == [] then 0 else DurationOrZero(p[0].joke) + Seconds(p[1..])
  }

  lemma SecondsCons(e: Scored, rest: seq<Scored>)
    ensures Seconds([e] + rest) == DurationOrZero(e.joke) + Seconds(rest)
  {
    assert ([e] + rest)[1..] == rest;
  }

  /** A non-empty prefix of `[e] + rest` is `e` followed by a prefix of `rest`. */
  lemma SecondsConsPrefix(e: Scored, rest: seq<Scored>, m: nat)
    requires 0 < m <= |rest| + 1
    ensures Seconds(([e] + rest)[..m]) == DurationOrZero(e.joke) + Seconds(rest[..m - 1])
  {
    assert ([e] + rest)[..m] == [e] + rest[..m - 1];
    SecondsCons(e, rest[..m - 1]);
  }

  /** `Seconds` is the total duration of the jokes of the entries. */
  lemma {:induction false} SecondsIsTotal(p: seq<Scored>)
    ensures Seconds(p) == TotalDuration(JokesOf(p))
    decreases |p|
  {
    if p != [] {
      SecondsIsTotal(p[1..]);
      assert p == [p[0]] + p[1..];
      JokesOfCons(p[0], p[1..]);
      TotalDurationCons(p[0].joke, JokesOf(p[1..]));
    }
  }

  /** The walk keeps only entries with a positive duration, in their order. */
  lemma {:induction false} FillPicksTimedEntries(sorted: seq<Scored>, i: nat, target: int, current: int)
    requires i <= |sorted|
    ensures IsSubsequence(FillFrom(sorted, i, target, current), sorted[i..])
    ensures forall e :: e in FillFrom(sorted, i, target, current) ==> DurationOrZero(e.joke) > 0
    decreases |sorted| - i
  {
    if i < |sorted| {
      var d := DurationOrZero(sorted[i].joke);
      var c' := if d == 0 || current + d > target + 30 then current else current + d;
      FillPicksTimedEntries(sorted, i + 1, target, c');
      assert sorted[i..][0] == sorted[i] && sorted[i..][1..] == sorted[i + 1..];
      var p := FillFrom(sorted, i, target, current);
      if p != [] && !(d == 0 || current + d > target + 30) {
        assert p[1..] == (if current + d >= target then [] else FillFrom(sorted, i + 1, target, c'));
      }
    }
  }

  /** Every non-empty prefix of `p`, counted from `start` seconds, stays within `limit`. */
  ghost predicate PrefixesWithin(p: seq<Scored>, start: int, limit: int) {
    forall m :: 0 < m <= |p| ==> start + Seconds(p[..m]) <= limit
  }

  /** Every proper non-empty prefix of `p`, counted from `start` seconds, is below `bound`. */
  ghost predicate ProperPrefixesBelow(p: seq<Scored>, start: int, bound: int) {
    forall m :: 0 < m < |p| ==> start + Seconds(p[..m]) < bound
  }

  /** Every non-empty prefix of what the walk takes stays within `target + 30`. */
  lemma {:induction false} FillWithinAllowance(sorted: seq<Scored>, i: nat, target: int, current: int)
    requires i <= |sorted|
    ensures PrefixesWithin(FillFrom(sorted, i, target, current), current, target + 30)
    decreases |sorted| - i
  {
    if i < |sorted| {
      var x := sorted[i];
      var d := DurationOrZero(x.joke);
      if d == 0 || current + d > target + 30 {
        assert FillFrom(sorted, i, target, current) == FillFrom(sorted, i + 1, target, current);
        FillWithinAllowance(sorted, i + 1, target, current);
      } else {
        var rest := if current + d >= target then [] else FillFrom(sorted, i + 1, target, current + d);
        var p := [x] + rest;
        assert FillFrom(sorted, i, target, current) == p;
        FillWithinAllowance(sorted, i + 1, target, current + d);
        forall m | 0 < m <= |p|
          ensures current + Seconds(p[..m]) <= target + 30
        {
          SecondsConsPrefix(x, rest, m);
          if m == 1 {
            assert rest[..0] == [];
          } else {
            assert rest == FillFrom(sorted, i + 1, target, current + d);
            assert current + d + Seconds(rest[..m - 1]) <= target + 30;
          }
        }
      }
    }
  }

  /** Every proper prefix of what the walk takes is still short of `target`:
      the walk stops as soon as the target is reached. */
  lemma {:induction false} FillStopsAtTarget(sorted: seq<Scored>, i: nat, target: int, current: int)
    requires i <= |sorted|
    ensures ProperPrefixesBelow(FillFrom(sorted, i, target, current), current, target)
    decreases |sorted| - i
  {
    if i < |sorted| {
      var x := sorted[i];
      var d := DurationOrZero(x.joke);
      if d == 0 || current + d > target + 30 {
        assert FillFrom(sorted, i, target, current) == FillFrom(sorted, i + 1, target, current);
        FillStopsAtTarget(sorted, i + 1, target, current);
      } else if current + d < target {
        var rest := FillFrom(sorted, i + 1, target, current + d);
        var p := [x] + rest;
        assert FillFrom(sorted, i, target, current) == p;
        FillStopsAtTarget(sorted, i + 1, target, current + d);
        forall m | 0 < m < |p|
          ensures current + Seconds(p[..m]) < target
        {
          SecondsConsPrefix(x, rest, m);
          if m == 1 {
            assert rest[..0] == [];
          } else {
            assert current + d + Seconds(rest[..m - 1]) < target;
          }
        }
      }
    }
  }

  /** When the walk ends short of `target`, it is because every entry it left
      out (with a positive duration) would overshoot `target + 30`. */
  lemma {:induction false} FillGreedy(sorted: seq<Scored>, i: nat, target: int, current: int)
    requires i <= |sorted|
    ensures var p := FillFrom(sorted, i, target, current);
      current + Seconds(p) < target ==>
        forall k :: i <= k < |sorted| && DurationOrZero(sorted[k].joke) > 0 && sorted[k] !in p ==>
          current + Seconds(p) + DurationOrZero(sorted[k].joke) > target + 30
    decreases |sorted| - i
  {
    if i < |sorted| {
      var x := sorted[i];
      var d := DurationOrZero(x.joke);
      var p := FillFrom(sorted, i, target, current);
      if d == 0 || current + d > target + 30 {
        FillGreedy(sorted, i + 1, target, current);
        SecondsNonNegative(p);
      } else if current + d < target {
        var rest := FillFrom(sorted, i + 1, target, current + d);
        assert p == [x] + rest;
        FillGreedy(sorted, i + 1, target, current + d);
        SecondsCons(x, rest);
        assert x in p;
      } else {
        assert p == [x] + [];
        SecondsCons(x, []);
      }
    }
  }

  lemma {:induction false} SecondsNonNegative(p: seq<Scored>)
    ensures Seconds(p) >= 0
    decreases |p|
  {
    if p != [] {
      SecondsNonNegative(p[1..]);
    }
  }

  /** The jokes `selectByDuration` returns. */
  function DurationSelection(jokes: seq<Joke>, targetSeconds: int, preferHigherRating: bool, draws: seq<real>): seq<Joke>
    requires |draws| == |jokes| && ValidDraws(draws)
  {
    JokesOf(Fill(ByScore(jokes, preferHigherRating, draws), targetSeconds))
  }

  lemma JokesOfPrefix(p: seq<Scored>, m: nat)
    requires m <= |p|
    ensures JokesOf(p)[..m] == JokesOf(p[..m])
  {
    assert p == p[..m] + p[m..];
    MapConcat(p[..m], p[m..], JokeOf);
  }

  /** `selectByDuration` returns only jokes with a positive duration; every
      non-empty prefix of its result totals at most `targetSeconds + 30` and every
      proper prefix less than `targetSeconds`; so with a target of 0 or less it
      returns at most one joke. */
  lemma DurationSelectionBounds(jokes: seq<Joke>, targetSeconds: int, preferHigherRating: bool, draws: seq<real>)
    requires |draws| == |jokes| && ValidDraws(draws)
    ensures var r := DurationSelection(jokes, targetSeconds, preferHigherRating, draws);
      && (forall j :: j in r ==> DurationOrZero(j) > 0)
      && (forall m :: 0 < m <= |r| ==> TotalDuration(r[..m]) <= targetSeconds + 30)
      && (forall m :: 0 < m < |r| ==> TotalDuration(r[..m]) < targetSeconds)
      && (targetSeconds <= 0 ==> |r| <= 1)
  {
    var s := ByScore(jokes, preferHigherRating, draws);
    var p := Fill(s, targetSeconds);
    var r := JokesOf(p);
    FillPicksTimedEntries(s, 0, targetSeconds, 0);
    FillWithinAllowance(s, 0, targetSeconds, 0);
    FillStopsAtTarget(s, 0, targetSeconds, 0);
    forall j | j in r
      ensures DurationOrZero(j) > 0
    {
      var k :| 0 <= k < |r| && r[k] == j;
      assert p[k] in p;
    }
    forall m | 0 < m <= |r|
      ensures TotalDuration(r[..m]) <= targetSeconds + 30
      ensures m < |r| ==> TotalDuration(r[..m]) < targetSeconds
    {
      JokesOfPrefix(p, m);
      SecondsIsTotal(p[..m]);
    }
    if targetSeconds <= 0 && |r| > 1 {
      JokesOfPrefix(p, 1);
      SecondsIsTotal(p[..1]);
      SecondsNonNegative(p[..1]);
      assert false;
    }
  }

  /** The selection draws each joke from the pool at most as often as the pool
      holds it, takes the entries in non-increasing score order, and with
      `preferHigherRating` lists the jokes in non-increasing rating order. */
  lemma DurationSelectionOrder(jokes: seq<Joke>, targetSeconds: int, preferHigherRating: bool, draws: seq<real>)
    requires |draws| == |jokes| && ValidDraws(draws)
    ensures var s := ByScore(jokes, preferHigherRating, draws);
      var p := Fill(s, targetSeconds);
      && IsSubsequence(p, s)
      && (forall a, b :: 0 <= a < b < |p| ==> p[a].score >= p[b].score)
    ensures var r := DurationSelection(jokes, targetSeconds, preferHigherRating, draws);
      && multiset(r) <= multiset(jokes)
      && (preferHigherRating ==> forall a, b :: 0 <= a < b < |r| ==> RatingOrZero(r[a]) >= RatingOrZero(r[b]))
  {
    var s := ByScore(jokes, preferHigherRating, draws);
    var p := Fill(s, targetSeconds);
    ByScoreOrder(jokes, preferHigherRating, draws);
    FillPicksTimedEntries(s, 0, targetSeconds, 0);
    assert s[0..] == s;
    SubsequencePairs(p, s, (a: Scored, b: Scored) => a.score >= b.score);
    MapSubsequence(p, s, JokeOf);
    SubsequenceMultiset(JokesOf(p), JokesOf(s));
    if preferHigherRating {
      SubsequencePairs(JokesOf(p), JokesOf(s), (a: Joke, b: Joke) => RatingOrZero(a) >= RatingOrZero(b));
    }
  }

  /** When the selection ends short of the target, every pool joke with a
      duration that was left out would have overshot `targetSeconds + 30`. */
  lemma DurationSelectionGreedy(jokes: seq<Joke>, targetSeconds: int, preferHigherRating: bool, draws: seq<real>)
    requires |draws| == |jokes| && ValidDraws(draws)
    ensures var r := DurationSelection(jokes, targetSeconds, preferHigherRating, draws);
      TotalDuration(r) < targetSeconds ==>
        forall j :: j in jokes && DurationOrZero(j) > 0 && j !in r ==>
          TotalDuration(r) + DurationOrZero(j) > targetSeconds + 30
  {
    var s := ByScore(jokes, preferHigherRating, draws);
    var p := Fill(s, targetSeconds);
    var r := JokesOf(p);
    ByScoreOrder(jokes, preferHigherRating, draws);
    FillGreedy(s, 0, targetSeconds, 0);
    SecondsIsTotal(p);
    forall j | j in jokes && DurationOrZero(j) > 0 && j !in r
      ensures TotalDuration(r) < targetSeconds ==> TotalDuration(r) + DurationOrZero(j) > targetSeconds + 30
    {
      assert j in multiset(JokesOf(s));
      var k :| 0 <= k < |s| && JokesOf(s)[k] == j;
    }
  }

  /** `selectByDuration`: score, sort a copy of the scored pool, then fill greedily. */
  method SelectByDuration(jokes: seq<Joke>, targetSeconds: int, preferHigherRating: bool, draws: seq<real>)
    returns (selected: seq<Joke>)
    requires |draws| == |jokes| && ValidDraws(draws)
    ensures selected == DurationSelection(jokes, targetSeconds, preferHigherRating, draws)
  {
    var scored := ScoreAll(jokes, preferHigherRating, draws);
    var scoredJokes := new Scored[|scored|](i requires 0 <= i < |scored| => scored[i]);
    assert scoredJokes[..] == scored;
    SortInPlace(scoredJokes, Outscores);
    selected := FillLoop(scoredJokes[..], targetSeconds);
  }

  /** The `for ... of scoredJokes` loop of `selectByDuration`. */
  method FillLoop(sorted: seq<Scored>, targetSeconds: int) returns (selected: seq<Joke>)
    ensures selected == JokesOf(Fill(sorted, targetSeconds))
  {
    ghost var picked: seq<Scored> := [];
    selected := [];
    var currentDuration := 0;
    for i := 0 to |sorted|
      invariant |selected| == |picked|
      invariant forall k :: 0 <= k < |picked| ==> selected[k] == picked[k].joke
      invariant Fill(sorted, targetSeconds) == picked + FillFrom(sorted, i, targetSeconds, currentDuration)
    {
      FillFromStep(sorted, i, targetSeconds, currentDuration);
      var joke := sorted[i].joke;
      var jokeDuration := DurationOrZero(joke);
      if jokeDuration == 0 {
        continue;
      }
      if currentDuration + jokeDuration <= targetSeconds + 30 {
        ghost var rest := FillFrom(sorted, i + 1, targetSeconds, currentDuration + jokeDuration);
        assert picked + ([sorted[i]] + rest) == (picked + [sorted[i]]) + rest;
        picked := picked + [sorted[i]];
        selected := selected + [joke];
        currentDuration := currentDuration + jokeDuration;
        if currentDuration >= targetSeconds {
          assert Fill(sorted, targetSeconds) == picked;
          break;
        }
      }
    }
    assert Fill(sorted, targetSeconds) == picked + [];
    JokesOfElements(picked, selected);
  }

  /** One step of the walk, as the loop body takes it. */
  lemma FillFromStep(sorted: seq<Scored>, i: nat, target: int, current: int)
    requires i < |sorted|
    ensures var d := DurationOrZero(sorted[i].joke);
      FillFrom(sorted, i, target, current) ==
        if d == 0 || current + d > target + 30 then FillFrom(sorted, i + 1, target, current)
        else if current + d >= target then [sorted[i]]
        else [sorted[i]] + FillFrom(sorted, i + 1, target, current + d)
  {
  }

  /** A list whose elements are the entries' jokes is their `JokesOf`. */
  lemma JokesOfElements(p: seq<Scored>, js: seq<Joke>)
    requires |js| == |p|
    requires forall k :: 0 <= k < |p| ==> js[k] == p[k].joke
    ensures js == JokesOf(p)
  {
  }

  // ---------------------------------------------------------------- selection by count

  /** The end index `Array.prototype.slice(0, count)` uses on a sequence of
      length `n`: a negative count counts back from the end. */
  function SliceEnd(n: nat, count: int): (e: nat)
    ensures e <= n
    ensures count >= 0 ==> e == if count < n then count else n
    ensures count < 0 ==> e == if n + count > 0 then n + count else 0
  {
    if count < 0 then (if n + count > 0 then n + count else 0)
    else if count < n then count else n
  }

  /** `selectByQuantity`: the first `count` entries of the sorted scored pool. */
  function SelectByQuantity(jokes: seq<Joke>, count: int, preferHigherRating: bool, draws: seq<real>): seq<Joke>
    requires |draws| == |jokes| && ValidDraws(draws)
  {
    var s := ByScore(jokes, preferHigherRating, draws);
    JokesOf(s[..SliceEnd(|s|, count)])
  }

  /** `selectByQuantity` returns min(count, |jokes|) jokes for a non-negative
      count; they are the highest-scored entries, in non-increasing score order,
      drawn from the pool; with `preferHigherRating` no left-out joke is rated
      higher than a selected one. */
  lemma QuantitySelectionFacts(jokes: seq<Joke>, count: int, preferHigherRating: bool, draws: seq<real>)
    requires |draws| == |jokes| && ValidDraws(draws)
    ensures var r := SelectByQuantity(jokes, count, preferHigherRating, draws);
      var s := ByScore(jokes, preferHigherRating, draws);
      && |r| == SliceEnd(|jokes|, count)
      && (count >= 0 ==> |r| == if count < |jokes| then count else |jokes|)
      && (forall k :: 0 <= k < |r| ==> r[k] == s[k].joke)
      && (forall a, b :: 0 <= a < b < |s| && a < |r| ==> s[a].score >= s[b].score)
      && multiset(r) <= multiset(jokes)
      && (preferHigherRating ==>
            forall a, b :: 0 <= a < |r| <= b < |s| ==> RatingOrZero(s[a].joke) >= RatingOrZero(s[b].joke))
  {
    var s := ByScore(jokes, preferHigherRating, draws);
    var n := SliceEnd(|s|, count);
    ByScoreOrder(jokes, preferHigherRating, draws);
    JokesOfPrefix(s, n);
    PrefixIsSubsequence(JokesOf(s), n);
    SubsequenceMultiset(JokesOf(s)[..n], JokesOf(s));
  }

  // ---------------------------------------------------------------- grouping by tags

  /** `joke.tags.filter(tag => lastTags.has(tag)).length`: repeated tags of `j` count repeatedly. */
  function Overlap(last: Joke, j: Joke): nat {
    |Filter(j.tags, t => t in last.tags)|
  }

  /** `new Set([...lastJoke.tags, ...joke.tags]).size` */
  function UnionSize(last: Joke, j: Joke): nat {
    |set t | t in last.tags + j.tags|
  }

  /** The similarity `groupByTags` uses: overlap over the size of the union,
      0 when neither joke has a tag. */
  function Similarity(last: Joke, j: Joke): (r: real)
    ensures r >= 0.0
  {
    var total := UnionSize(last, j);
    if total > 0 then Overlap(last, j) as real / total as real else 0.0
  }

  lemma SharedTagScoresPositive(last: Joke, j: Joke, t: string)
    requires t in j.tags && t in last.tags
    ensures Similarity(last, j) > 0.0
  {
    FilterMembership(j.tags, u => u in last.tags);
    assert t in Filter(j.tags, u => u in last.tags);
    var union := set u | u in last.tags + j.tags;
    assert t in union;
    assert union != {};
  }

  lemma NoSharedTagScoresZero(last: Joke, j: Joke)
    requires forall t :: t in j.tags ==> t !in last.tags
    ensures Similarity(last, j) == 0.0
  {
    FilterNone(j.tags, u => u in last.tags);
  }

  /** Two jokes are similar (score above 0) exactly when they share a tag. */
  lemma SimilarityPositiveIff(last: Joke, j: Joke)
    ensures Similarity(last, j) > 0.0 <==> exists t :: t in j.tags && t in last.tags
  {
    if t :| t in j.tags && t in last.tags {
      SharedTagScoresPositive(last, j, t);
    } else {
      NoSharedTagScoresZero(last, j);
    }
  }

  /** The inner `for` loop of `groupByTags` over `jokes[..k]`, as (index of
      `bestMatch`, `bestScore`), with -1 for a `bestMatch` still null: the first
      remaining joke of greatest similarity to `last`. */
  function Scan(jokes: seq<Joke>, last: Joke, remaining: set<string>, k: nat): (r: (int, real))
    requires k <= |jokes|
    ensures r.0 == -1 ==> r.1 == -1.0 && forall m :: 0 <= m < k ==> jokes[m].id !in remaining
    ensures r.0 != -1 ==>
      && 0 <= r.0 < k && jokes[r.0].id in remaining && r.1 == Similarity(last, jokes[r.0])
      && (forall m :: 0 <= m < k && jokes[m].id in remaining ==> Similarity(last, jokes[m]) <= r.1)
      && (forall m :: 0 <= m < r.0 && jokes[m].id in remaining ==> Similarity(last, jokes[m]) < r.1)
  {
    if k == 0 then (-1, -1.0)
    else
      var prev := Scan(jokes, last, remaining, k - 1);
      var j := jokes[k - 1];
      if j.id in remaining && Similarity(last, j) > prev.1 then (k - 1, Similarity(last, j))
      else prev
  }

  /** One more turn of the scan. */
  lemma ScanStep(jokes: seq<Joke>, last: Joke, remaining: set<string>, k: nat)
    requires k < |jokes|
    ensures var prev := Scan(jokes, last, remaining, k);
      Scan(jokes, last, remaining, k + 1) ==
        if jokes[k].id in remaining && Similarity(last, jokes[k]) > prev.1 then (k, Similarity(last, jokes[k])) else prev
  {
  }

  /** Ids still in `remaining` belong to some joke of the pool. */
  lemma RemainingHasJoke(jokes: seq<Joke>, remaining: set<string>)
    requires remaining != {} && remaining <= IdSet(jokes)
    ensures exists m :: 0 <= m < |jokes| && jokes[m].id in remaining
  {
    var id :| id in remaining;
    assert id in IdSet(jokes);
  }

  /** The `while` loop of `groupByTags` from the list `result` built so far and
      the ids not placed yet. */
  function Chain(jokes: seq<Joke>, result: seq<Joke>, remaining: set<string>): seq<Joke>
    requires result != [] && remaining <= IdSet(jokes)
    decreases |remaining|
  {
    if remaining == {} then result
    else
      var x := NextPick(jokes, result, remaining);
      Chain(jokes, result + [x], remaining - {x.id})
  }

  /** The `bestMatch` of one turn of the `while` loop: never null, because a
      remaining id belongs to a pool joke and every similarity beats -1. */
  function NextPick(jokes: seq<Joke>, result: seq<Joke>, remaining: set<string>): (x: Joke)
    requires result != [] && remaining != {} && remaining <= IdSet(jokes)
    ensures x in jokes && x.id in remaining
  {
    RemainingHasJoke(jokes, remaining);
    jokes[Scan(jokes, result[|result| - 1], remaining, |jokes|).0]
  }

  /** What `groupByTags` returns. */
  function Grouped(jokes: seq<Joke>): seq<Joke> {
    if |jokes| <= 1 then jokes
    else Chain(jokes, [jokes[0]], IdSet(jokes) - {jokes[0].id})
  }

  /** The `bestMatch` that Scan describes, null as `None`. */
  function ScanMatch(jokes: seq<Joke>, last: Joke, remaining: set<string>): Option<Joke> {
    var best := Scan(jokes, last, remaining, |jokes|).0;
    if best == -1 then None else Some(jokes[best])
  }

  /** The inner `for` loop of `groupByTags`. */
  method FindBestMatch(jokes: seq<Joke>, lastJoke: Joke, remaining: set<string>) returns (bestMatch: Option<Joke>)
    ensures bestMatch == ScanMatch(jokes, lastJoke, remaining)
  {
    bestMatch := None;
    var bestScore := -1.0;
    ghost var bestAt := -1;
    for k := 0 to |jokes|
      invariant (bestAt, bestScore) == Scan(jokes, lastJoke, remaining, k)
      invariant bestMatch == if bestAt == -1 then None else Some(jokes[bestAt])
    {
      ScanStep(jokes, lastJoke, remaining, k);
      var joke := jokes[k];
      if joke.id !in remaining {
        continue;
      }
      var score := Similarity(lastJoke, joke);
      if score > bestScore {
        bestScore := score;
        bestMatch := Some(joke);
        bestAt := k;
      }
    }
  }

  /** `groupByTags` */
  method GroupByTags(jokes: seq<Joke>) returns (result: seq<Joke>)
    ensures result == Grouped(jokes)
  {
    if |jokes| <= 1 {
      return jokes;
    }
    var firstJoke := jokes[0];
    result := [firstJoke];
    var remaining := IdSet(jokes) - {firstJoke.id};
    while |remaining| > 0
      invariant result != [] && remaining <= IdSet(jokes)
      invariant Grouped(jokes) == Chain(jokes, result, remaining)
      decreases |remaining|
    {
      var lastJoke := result[|result| - 1];
      var bestMatch := FindBestMatch(jokes, lastJoke, remaining);
      RemainingHasJoke(jokes, remaining);
      assert bestMatch == Some(NextPick(jokes, result, remaining));
      result := result + [bestMatch.value];
      remaining := remaining - {bestMatch.value.id};
    }
  }

  /** What holds of the list built so far and the ids still to place. */
  ghost predicate ChainInv(jokes: seq<Joke>, result: seq<Joke>, remaining: set<string>) {
    && result != []
    && remaining <= IdSet(jokes)
    && IdSet(result) !! remaining
    && IdSet(result) + remaining == IdSet(jokes)
    && DistinctIds(result)
    && (forall k :: 0 <= k < |result| ==> result[k] in jokes)
  }

  /** Position `k` of `r` holds the joke the greedy step picks after `r[k - 1]`:
      among the pool jokes whose ids are not in `r[..k]`, one of greatest
      similarity to `r[k - 1]`, and the first such in pool order. */
  ghost predicate GreedyStep(jokes: seq<Joke>, r: seq<Joke>, k: int)
    requires 0 < k < |r|
  {
    var rem := IdSet(jokes) - IdSet(r[..k]);
    exists b :: 0 <= b < |jokes| && jokes[b] == r[k] && jokes[b].id in rem
      && (forall m :: 0 <= m < |jokes| && jokes[m].id in rem ==> Similarity(r[k - 1], jokes[m]) <= Similarity(r[k - 1], r[k]))
      && (forall m :: 0 <= m < b && jokes[m].id in rem ==> Similarity(r[k - 1], jokes[m]) < Similarity(r[k - 1], r[k]))
  }

  ghost predicate GreedyFrom(jokes: seq<Joke>, r: seq<Joke>) {
    forall k :: 0 < k < |r| ==> GreedyStep(jokes, r, k)
  }

  /** One turn of the `while` loop keeps the invariant and adds a greedy step. */
  lemma ChainTurn(jokes: seq<Joke>, result: seq<Joke>, remaining: set<string>)
    requires ChainInv(jokes, result, remaining) && GreedyFrom(jokes, result)
    requires remaining != {}
    ensures var x := NextPick(jokes, result, remaining);
      && ChainInv(jokes, result + [x], remaining - {x.id})
      && GreedyFrom(jokes, result + [x])
  {
    RemainingHasJoke(jokes, remaining);
    var best := Scan(jokes, result[|result| - 1], remaining, |jokes|).0;
    var x := NextPick(jokes, result, remaining);
    var r := result + [x];
    IdSetAppend(result, x);
    assert ChainInv(jokes, r, remaining - {x.id}) by {
      forall i, j | 0 <= i < j < |r|
        ensures r[i].id != r[j].id
      {
        if j == |result| {
          assert r[i].id in IdSet(result);
        }
      }
      assert x in jokes;
    }
    forall k | 0 < k < |r|
      ensures GreedyStep(jokes, r, k)
    {
      if k < |result| {
        assert r[..k] == result[..k];
        assert GreedyStep(jokes, result, k);
      } else {
        assert r[..k] == result;
        assert IdSet(jokes) - IdSet(result) == remaining;
      }
    }
  }

  /** The `while` loop keeps the invariant, extends the list built so far, and
      adds only greedy steps. */
  lemma {:induction false} ChainFacts(jokes: seq<Joke>, result: seq<Joke>, remaining: set<string>)
    requires ChainInv(jokes, result, remaining) && GreedyFrom(jokes, result)
    ensures var r := Chain(jokes, result, remaining);
      ChainInv(jokes, r, {}) && result <= r && GreedyFrom(jokes, r)
    decreases |remaining|
  {
    if remaining != {} {
      var x := NextPick(jokes, result, remaining);
      ChainTurn(jokes, result, remaining);
      ChainFacts(jokes, result + [x], remaining - {x.id});
      var r := Chain(jokes, result + [x], remaining - {x.id});
      assert Chain(jokes, result, remaining) == r;
      assert result <= result + [x] <= r;
    }
  }

  /** For two or more jokes, `groupByTags` starts with the first joke, places
      every id of the pool exactly once, takes only pool jokes, and picks each
      next joke greedily. */
  lemma GroupedFacts(jokes: seq<Joke>)
    requires |jokes| >= 2
    ensures var r := Grouped(jokes);
      && r != [] && r[0] == jokes[0]
      && DistinctIds(r)
      && IdSet(r) == IdSet(jokes)
      && |r| == |IdSet(jokes)|
      && (forall x :: x in r ==> x in jokes)
      && GreedyFrom(jokes, r)
  {
    var start := [jokes[0]];
    IdSetAppend([], jokes[0]);
    assert [] + [jokes[0]] == start;
    assert IdSet(start) == {jokes[0].id};
    assert ChainInv(jokes, start, IdSet(jokes) - {jokes[0].id});
    ChainFacts(jokes, start, IdSet(jokes) - {jokes[0].id});
    DistinctIdsCardinality(Grouped(jokes));
  }

  /** `groupByTags` never repeats a joke and never invents one; when the pool's
      ids are distinct it returns a permutation of the pool. */
  lemma GroupedPermutation(jokes: seq<Joke>)
    ensures multiset(Grouped(jokes)) <= multiset(jokes)
    ensures DistinctIds(jokes) ==> multiset(Grouped(jokes)) == multiset(jokes)
  {
    var r := Grouped(jokes);
    if |jokes| >= 2 {
      GroupedFacts(jokes);
      forall x
        ensures multiset(r)[x] <= multiset(jokes)[x]
      {
        DistinctIdsOccurOnce(r, x);
      }
      if DistinctIds(jokes) {
        SameIdsPermutation(r, jokes);
      }
    }
  }

  // ---------------------------------------------------------------- statistics

  /** `joke.rating != null && joke.rating > 0` */
  predicate IsRated(j: Joke) {
    j.rating.Some? && j.rating.value > 0
  }

  datatype Stats = Stats(totalDuration: int, averageRating: real)

  /** `calculateStats`: the total duration (missing counted as 0) and the mean
      rating of the rated jokes, 0 when none is rated. */
  function CalculateStats(jokes: seq<Joke>): Stats {
    var rated := Filter(jokes, IsRated);
    Stats(TotalDuration(jokes), if |rated| > 0 then RatingSum(rated) as real / |rated| as real else 0.0)
  }

  /** The average is 0 exactly when no joke is rated; otherwise it is positive
      and lies between any bounds on the ratings of the rated jokes. */
  lemma AverageRatingBounds(jokes: seq<Joke>, lo: int, hi: int)
    requires forall j :: j in jokes && IsRated(j) ==> lo <= j.rating.value <= hi
    ensures var avg := CalculateStats(jokes).averageRating;
      && (avg == 0.0 <==> forall j :: j in jokes ==> !IsRated(j))
      && ((exists j :: j in jokes && IsRated(j)) ==> lo as real <= avg <= hi as real && avg >= 1.0)
  {
    var rated := Filter(jokes, IsRated);
    FilterMembership(jokes, IsRated);
    if j :| j in jokes && IsRated(j) {
      assert j in rated;
      var least := if lo > 1 then lo else 1;
      assert forall i :: 0 <= i < |rated| ==> rated[i] in rated;
      SumBounds(rated, RatingOrZero, least, hi);
      MeanBounds(RatingSum(rated), |rated|, least, hi);
    }
  }

  /** The statistics do not depend on the order of the jokes. */
  lemma StatsPermutation(a: seq<Joke>, b: seq<Joke>)
    requires multiset(a) == multiset(b)
    ensures CalculateStats(a) == CalculateStats(b)
  {
    FilterPermutation(a, b, IsRated);
    TotalsPermutation(a, b);
    TotalsPermutation(Filter(a, IsRated), Filter(b, IsRated));
    assert |Filter(a, IsRated)| == |multiset(Filter(a, IsRated))|;
  }

  // ---------------------------------------------------------------- suggest

  /** The jokes chosen in step 2 of `suggest`, before grouping. */
  function Selection(jokes: seq<Joke>, config: SuggestionConfig, draws: seq<real>): seq<Joke>
    requires |draws| >= |jokes| && ValidDraws(draws)
  {
    var filtered := FilterByTags(jokes, config.filterTagIds);
    var d := draws[..|filtered|];
    if config.mode == ByDuration then DurationSelection(filtered, config.targetDuration, config.preferHigherRating, d)
    else SelectByQuantity(filtered, config.targetQuantity, config.preferHigherRating, d)
  }

  /** What `suggest` returns. The scoring of the filtered pool uses the first
      values of `draws`, one per filtered joke. */
  function Suggestion(jokes: seq<Joke>, config: SuggestionConfig, draws: seq<real>): SuggestionResult
    requires |draws| >= |jokes| && ValidDraws(draws)
  {
    var selected := Selection(jokes, config, draws);
    var final := if config.groupByTags then Grouped(selected) else selected;
    var stats := CalculateStats(final);
    SuggestionResult(final, stats.totalDuration, stats.averageRating)
  }

  /** `suggest` */
  method Suggest(jokes: seq<Joke>, config: SuggestionConfig, draws: seq<real>) returns (result: SuggestionResult)
    requires |draws| >= |jokes| && ValidDraws(draws)
    ensures result == Suggestion(jokes, config, draws)
  {
    var filtered := FilterByTags(jokes, config.filterTagIds);
    var d := draws[..|filtered|];
    var selected: seq<Joke>;
    if config.mode == ByDuration {
      selected := SelectByDuration(filtered, config.targetDuration, config.preferHigherRating, d);
    } else {
      selected := SelectByQuantity(filtered, config.targetQuantity, config.preferHigherRating, d);
    }
    if config.groupByTags {
      selected := GroupByTags(selected);
    }
    var stats := CalculateStats(selected);
    result := SuggestionResult(selected, stats.totalDuration, stats.averageRating);
  }

  /** Step 3 of `suggest` only ever drops or reorders jokes. */
  lemma OptionalGrouping(selected: seq<Joke>, group: bool)
    ensures var f := if group then Grouped(selected) else selected;
      && multiset(f) <= multiset(selected)
      && |f| <= |selected|
      && (forall j :: j in f ==> j in selected)
      && TotalDuration(f) <= TotalDuration(selected)
  {
    var f := if group then Grouped(selected) else selected;
    GroupedPermutation(selected);
    SubMultisetLength(f, selected);
    forall j | j in f
      ensures j in selected
    {
      assert j in multiset(f);
    }
    SumSubMultiset(f, selected, DurationOrZero);
  }

  /** The jokes of a suggestion come from the tag-filtered pool, each at most as
      often as the pool holds it, and the total duration is theirs. */
  lemma SuggestionFromPool(jokes: seq<Joke>, config: SuggestionConfig, draws: seq<real>)
    requires |draws| >= |jokes| && ValidDraws(draws)
    ensures var r := Suggestion(jokes, config, draws);
      && multiset(r.jokes) <= multiset(jokes)
      && (forall j :: j in r.jokes ==> j in jokes && Keep(config.filterTagIds, j))
      && r.totalDuration == TotalDuration(r.jokes) >= 0
  {
    var filtered := FilterByTags(jokes, config.filterTagIds);
    var selected := Selection(jokes, config, draws);
    SelectionFromPool(jokes, config, draws);
    SubsequenceMultiset(filtered, jokes);
    OptionalGrouping(selected, config.groupByTags);
    var r := Suggestion(jokes, config, draws);
    assert r.jokes == if config.groupByTags then Grouped(selected) else selected;
    forall j | j in r.jokes
      ensures j in jokes && Keep(config.filterTagIds, j)
    {
      assert j in multiset(r.jokes);
      assert j in multiset(filtered);
    }
    TotalDurationNonNegative(r.jokes);
  }

  /** The selection is drawn from the tag-filtered pool. */
  lemma SelectionFromPool(jokes: seq<Joke>, config: SuggestionConfig, draws: seq<real>)
    requires |draws| >= |jokes| && ValidDraws(draws)
    ensures multiset(Selection(jokes, config, draws)) <= multiset(FilterByTags(jokes, config.filterTagIds))
  {
    var filtered := FilterByTags(jokes, config.filterTagIds);
    var d := draws[..|filtered|];
    if config.mode == ByDuration {
      DurationSelectionOrder(filtered, config.targetDuration, config.preferHigherRating, d);
    } else {
      QuantitySelectionFacts(filtered, config.targetQuantity, config.preferHigherRating, d);
    }
  }

  /** An empty pool gives an empty suggestion with zero statistics. */
  lemma SuggestionOfEmptyPool(config: SuggestionConfig, draws: seq<real>)
    requires ValidDraws(draws)
    ensures Suggestion([], config, draws) == SuggestionResult([], 0, 0.0)
  {
    var r := Suggestion([], config, draws);
    SuggestionFromPool([], config, draws);
    assert r.jokes == [];
  }

  /** In duration mode every suggested joke has a duration, and a non-empty
      suggestion totals at most the target plus 30 seconds; with a target of 0
      or less it holds at most one joke. */
  lemma DurationSuggestionBounds(jokes: seq<Joke>, config: SuggestionConfig, draws: seq<real>)
    requires |draws| >= |jokes| && ValidDraws(draws)
    requires config.mode == ByDuration
    ensures var r := Suggestion(jokes, config, draws);
      && (forall j :: j in r.jokes ==> DurationOrZero(j) > 0)
      && (r.jokes != [] ==> r.totalDuration <= config.targetDuration + 30)
      && (config.targetDuration <= 0 ==> |r.jokes| <= 1)
  {
    var filtered := FilterByTags(jokes, config.filterTagIds);
    var d := draws[..|filtered|];
    var selected := DurationSelection(filtered, config.targetDuration, config.preferHigherRating, d);
    assert selected == Selection(jokes, config, draws);
    DurationSelectionBounds(filtered, config.targetDuration, config.preferHigherRating, d);
    if selected != [] {
      assert selected[..|selected|] == selected;
    }
    GroupingWithin(selected, config.groupByTags, config.targetDuration + 30);
    var final := if config.groupByTags then Grouped(selected) else selected;
    var r := Suggestion(jokes, config, draws);
    assert r.jokes == final && r.totalDuration == TotalDuration(final);
  }

  /** Optional grouping keeps jokes with durations and a total within a bound. */
  lemma GroupingWithin(selected: seq<Joke>, group: bool, bound: int)
    requires forall j :: j in selected ==> DurationOrZero(j) > 0
    requires selected != [] ==> TotalDuration(selected) <= bound
    ensures var f := if group then Grouped(selected) else selected;
      && (forall j :: j in f ==> DurationOrZero(j) > 0)
      && (f != [] ==> TotalDuration(f) <= bound)
      && |f| <= |selected|
  {
    OptionalGrouping(selected, group);
  }

  /** In quantity mode a suggestion never holds more than the requested number of
      jokes, and without grouping it holds exactly min(count, |filtered pool|). */
  lemma QuantitySuggestionSize(jokes: seq<Joke>, config: SuggestionConfig, draws: seq<real>)
    requires |draws| >= |jokes| && ValidDraws(draws)
    requires config.mode == ByQuantity && config.targetQuantity >= 0
    ensures var r := Suggestion(jokes, config, draws);
      var n := |FilterByTags(jokes, config.filterTagIds)|;
      && |r.jokes| <= config.targetQuantity
      && (!config.groupByTags ==> |r.jokes| == if config.targetQuantity < n then config.targetQuantity else n)
  {
    var filtered := FilterByTags(jokes, config.filterTagIds);
    var d := draws[..|filtered|];
    var selected := SelectByQuantity(filtered, config.targetQuantity, config.preferHigherRating, d);
    assert selected == Selection(jokes, config, draws);
    QuantitySelectionFacts(filtered, config.targetQuantity, config.preferHigherRating, d);
    OptionalGrouping(selected, config.groupByTags);
  }

  /** When the pool's ids are distinct, grouping reorders the selection without
      changing its statistics. */
  lemma GroupingKeepsStats(jokes: seq<Joke>, config: SuggestionConfig, draws: seq<real>)
    requires |draws| >= |jokes| && ValidDraws(draws)
    requires DistinctIds(jokes)
    ensures var r := Suggestion(jokes, config, draws);
      var selected := Selection(jokes, config, draws);
      && multiset(r.jokes) == multiset(selected)
      && CalculateStats(r.jokes) == CalculateStats(selected)
  {
    var cfg := config.(groupByTags := false);
    SuggestionFromPool(jokes, cfg, draws);
    var selected := Selection(jokes, config, draws);
    assert Suggestion(jokes, cfg, draws).jokes == selected;
    SubMultisetDistinctIds(selected, jokes);
    GroupedPermutation(selected);
    StatsPermutation(Suggestion(jokes, config, draws).jokes, selected);
  }

  /** `getDefaultConfig`: fill a 15-minute set, grouped by tags, from every joke. */
  function GetDefaultConfig(): (c: SuggestionConfig)
    ensures c.mode == ByDuration && c.targetDuration == 15 * 60 && c.targetQuantity == 10
    ensures c.filterTagIds == [] && !c.preferHigherRating && c.groupByTags
  {
    SuggestionConfig(ByDuration, 15 * 60, 10, [], false, true)
  }

  /** A suggestion with the default configuration runs at most 15 minutes and
      30 seconds. */
  lemma DefaultSuggestionBound(jokes: seq<Joke>, draws: seq<real>)
    requires |draws| >= |jokes| && ValidDraws(draws)
    ensures Suggestion(jokes, GetDefaultConfig(), draws).totalDuration <= 930
  {
    DurationSuggestionBounds(jokes, GetDefaultConfig(), draws);
  }
}
