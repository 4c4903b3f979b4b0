/** The records the utilities work on: jokes and tags, as the database returns them. */
module Jokes {
  import opened Wrappers
  import opened Seqs

  /** A joke. `rating` is on a 1-5 scale when present; `duration` is in seconds,
      and 0 behaves like an absent duration; `tags` holds tag ids. */
  datatype Joke = Joke(
    id: string,
    name: string,
    content: Option<string>,
    rating: Option<int>,
    duration: Option<nat>,
    tags: seq<string>)

  /** A user-defined tag with its display colour. */
  datatype Tag = Tag(id: string, name: string, color: string)

  /** `joke.rating || 0` */
  function RatingOrZero(j: Joke): int {
    j.rating.GetOr(0)
  }

  /** `joke.duration || 0` */
  function DurationOrZero(j: Joke): int {
    j.duration.GetOr(0)
  }

  /** `jokes.reduce((sum, joke) => sum + (joke.duration || 0), 0)` */
  function TotalDuration(jokes: seq<Joke>): int {
    Sum(jokes, DurationOrZero)
  }

  /** `jokes.reduce((sum, joke) => sum + (joke.rating || 0), 0)` */
  function RatingSum(jokes: seq<Joke>): int {
    Sum(jokes, RatingOrZero)
  }

  /** Total durations are never negative, and grow with every joke appended. */
  lemma {:induction false} TotalDurationPrefix(jokes: seq<Joke>, k: nat)
    requires k < |jokes|
    ensures TotalDuration(jokes[..k + 1]) == TotalDuration(jokes[..k]) + DurationOrZero(jokes[k])
    ensures TotalDuration(jokes[..k]) >= 0
  {
    var s := jokes[..k + 1];
    assert s[..|s| - 1] == jokes[..k];
    assert Sum(s, DurationOrZero) == Sum(s[..|s| - 1], DurationOrZero) + DurationOrZero(s[|s| - 1]);
    TotalDurationNonNegative(jokes[..k]);
  }

  lemma {:induction false} TotalDurationNonNegative(jokes: seq<Joke>)
    ensures TotalDuration(jokes) >= 0
    decreases |jokes|
  {
    if jokes != [] {
      TotalDurationNonNegative(jokes[..|jokes| - 1]);
      assert Sum(jokes, DurationOrZero) == Sum(jokes[..|jokes| - 1], DurationOrZero) + DurationOrZero(jokes[|jokes| - 1]);
    }
  }

  lemma TotalDurationCons(j: Joke, rest: seq<Joke>)
    ensures TotalDuration([j] + rest) == DurationOrZero(j) + TotalDuration(rest)
  {
    SumConcat([j], rest, DurationOrZero);
    assert [j][..0] == [];
    assert Sum([j], DurationOrZero) == Sum([j][..0], DurationOrZero) + DurationOrZero(j);
  }

  /** Reordering jokes does not change their total duration or rating sum. */
  lemma TotalsPermutation(a: seq<Joke>, b: seq<Joke>)
    requires multiset(a) == multiset(b)
    ensures TotalDuration(a) == TotalDuration(b)
    ensures RatingSum(a) == RatingSum(b)
  {
    SumPermutation(a, b, DurationOrZero);
    SumPermutation(a, b, RatingOrZero);
  }

  /** A mean of `n` terms in [lo, hi] lies in [lo, hi]. */
  lemma MeanBounds(sum: int, n: int, lo: int, hi: int)
    requires n > 0 && n * lo <= sum <= n * hi
    ensures sum as real / n as real * n as real == sum as real
    ensures lo as real <= sum as real / n as real <= hi as real
  {
    var avg := sum as real / n as real;
    assert avg * n as real == sum as real;
    assert n as real * lo as real <= avg * n as real <= n as real * hi as real;
  }

  /** The ids of a sequence of jokes. */
  function IdSet(jokes: seq<Joke>): set<string> {
    set i | 0 <= i < |jokes| :: jokes[i].id
  }

  ghost predicate DistinctIds(jokes: seq<Joke>) {
    forall i, j :: 0 <= i < j < |jokes| ==> jokes[i].id != jokes[j].id
  }

  lemma IdSetAppend(jokes: seq<Joke>, j: Joke)
    ensures IdSet(jokes + [j]) == IdSet(jokes) + {j.id}
  {
    var s := jokes + [j];
    assert forall i :: 0 <= i < |jokes| ==> s[i] == jokes[i];
    assert s[|jokes|] == j;
  }

  /** Jokes with pairwise distinct ids have as many ids as there are jokes. */
  lemma {:induction false} DistinctIdsCardinality(jokes: seq<Joke>)
    requires DistinctIds(jokes)
    ensures |IdSet(jokes)| == |jokes|
    decreases |jokes|
  {
    if jokes != [] {
      var init, j := jokes[..|jokes| - 1], jokes[|jokes| - 1];
      assert jokes == init + [j];
      DistinctIdsCardinality(init);
      IdSetAppend(init, j);
      assert j.id !in IdSet(init);
    }
  }

  /** With pairwise distinct ids, every joke occurs at most once. */
  lemma {:induction false} DistinctIdsOccurOnce(jokes: seq<Joke>, x: Joke)
    requires DistinctIds(jokes)
    ensures multiset(jokes)[x] == if x in jokes then 1 else 0
    decreases |jokes|
  {
    if jokes != [] {
      var init, j := jokes[..|jokes| - 1], jokes[|jokes| - 1];
      assert jokes == init + [j];
      DistinctIdsOccurOnce(init, x);
    }
  }

  /** Two sequences of jokes with distinct ids, the same ids, and the first's jokes
      all in the second, are permutations of each other. */
  lemma SameIdsPermutation(a: seq<Joke>, b: seq<Joke>)
    requires DistinctIds(a) && DistinctIds(b)
    requires IdSet(a) == IdSet(b)
    requires forall x :: x in a ==> x in b
    ensures multiset(a) == multiset(b)
  {
    forall x
      ensures multiset(a)[x] == multiset(b)[x]
    {
      DistinctIdsOccurOnce(a, x);
      DistinctIdsOccurOnce(b, x);
      if x in b {
        var i :| 0 <= i < |b| && b[i] == x;
        assert x.id in IdSet(a);
        var k :| 0 <= k < |a| && a[k].id == x.id;
        assert a[k] in b;
        var i' :| 0 <= i' < |b| && b[i'] == a[k];
        assert i' == i;
      }
    }
  }

  /** Taking jokes from a pool with distinct ids, each at most as often as the
      pool holds it, gives distinct ids again. */
  lemma SubMultisetDistinctIds(a: seq<Joke>, b: seq<Joke>)
    requires DistinctIds(b) && multiset(a) <= multiset(b)
    ensures DistinctIds(a)
  {
    forall i, j | 0 <= i < j < |a|
      ensures a[i].id != a[j].id
    {
      if a[i] == a[j] {
        var x := a[j];
        assert a == a[..j] + [x] + a[j + 1..];
        assert a[..j][i] == x;
        assert multiset(a)[x] >= 2;
        DistinctIdsOccurOnce(b, x);
      } else {
        assert a[i] in multiset(b) && a[j] in multiset(b);
        var k :| 0 <= k < |b| && b[k] == a[i];
        var l :| 0 <= l < |b| && b[l] == a[j];
        assert k != l;
      }
    }
  }
}
