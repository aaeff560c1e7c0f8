/** Official order of a competition and the positions 1, 2, 2, 4, ... it assigns. */
module Tiebreak {
  import opened Collections
  import opened JsArray

  /** An id is represented by its place in `localeCompare` order. */
  type UserId = int

  datatype Metrics = Metrics(
    userId: UserId,
    scoreRanking: int,
    superDoubleHits: int,
    doubleHits: int,
    userCreatedAt: int)

  datatype Ranked<T> = Ranked(row: T, position: int)

  function Compare(a: Metrics, b: Metrics): int {
    if b.scoreRanking != a.scoreRanking then b.scoreRanking - a.scoreRanking
    else if b.superDoubleHits != a.superDoubleHits then b.superDoubleHits - a.superDoubleHits
    else if b.doubleHits != a.doubleHits then b.doubleHits - a.doubleHits
    else if a.userCreatedAt != b.userCreatedAt then a.userCreatedAt - b.userCreatedAt
    else a.userId - b.userId
  }

  predicate SameOfficialPosition(a: Metrics, b: Metrics) {
    && a.scoreRanking == b.scoreRanking
    && a.superDoubleHits == b.superDoubleHits
    && a.doubleHits == b.doubleHits
    && a.userCreatedAt == b.userCreatedAt
  }

  /** `a` is officially ahead of `b`: a bigger score, then more super doubles, then more
      doubles, then the older account. The id never decides. */
  predicate Better(a: Metrics, b: Metrics) {
    || a.scoreRanking > b.scoreRanking
    || (a.scoreRanking == b.scoreRanking &&
        (|| a.superDoubleHits > b.superDoubleHits
         || (a.superDoubleHits == b.superDoubleHits &&
             (|| a.doubleHits > b.doubleHits
              || (a.doubleHits == b.doubleHits && a.userCreatedAt < b.userCreatedAt)))))
  }

  function ByMetrics<T>(metricsFor: T -> Metrics): (T, T) -> int {
    (a: T, b: T) => Compare(metricsFor(a), metricsFor(b))
  }

  lemma {:induction false} ByMetricsIsTotal<T(!new)>(metricsFor: T -> Metrics)
    ensures TotalPreorder(ByMetrics(metricsFor))
  {}

  /** How many rows are officially ahead of `m`. */
  function CountBetter<T>(rows: seq<T>, metricsFor: T -> Metrics, m: Metrics): nat {
    if rows == [] then 0
    else (if Better(metricsFor(rows[0]), m) then 1 else 0) + CountBetter(rows[1..], metricsFor, m)
  }

  /** Specification of the ranking: the rows in official order, each at one plus the
      number of rows officially ahead of it. */
  function Ranking<T>(rows: seq<T>, metricsFor: T -> Metrics): (ranked: seq<Ranked<T>>)
    ensures |ranked| == |rows|
  {
    var sorted := Sort(rows, ByMetrics(metricsFor));
    seq(|sorted|, i requires 0 <= i < |sorted| =>
      Ranked(sorted[i], 1 + CountBetter(rows, metricsFor, metricsFor(sorted[i]))))
  }

  function Rows<T>(ranked: seq<Ranked<T>>): (rows: seq<T>) {
    seq(|ranked|, i requires 0 <= i < |ranked| => ranked[i].row)
  }

  ghost predicate DistinctUsers<T>(rows: seq<T>, metricsFor: T -> Metrics) {
    forall i, j :: 0 <= i < j < |rows| ==> metricsFor(rows[i]).userId != metricsFor(rows[j]).userId
  }

  // ---- counting is independent of the order of the rows ----

  lemma {:induction false} CountBetterConcat<T>(a: seq<T>, b: seq<T>, metricsFor: T -> Metrics, m: Metrics)
    ensures CountBetter(a + b, metricsFor, m) == CountBetter(a, metricsFor, m) + CountBetter(b, metricsFor, m)
  {
    if a == [] {
      assert a + b == b;
    } else {
      assert (a + b)[1..] == a[1..] + b;
      CountBetterConcat(a[1..], b, metricsFor, m);
    }
  }

  /** The count is the number of rows that are ahead. */
  lemma {:induction false} CountBetterCounts<T>(rows: seq<T>, metricsFor: T -> Metrics, m: Metrics, ahead: set<nat>)
    requires forall j: nat :: j in ahead <==> j < |rows| && Better(metricsFor(rows[j]), m)
    ensures CountBetter(rows, metricsFor, m) == |ahead|
    decreases |rows|
  {
    if rows == [] {
      assert ahead == {};
    } else {
      var last: nat := |rows| - 1;
      CountBetterCounts(rows[..last], metricsFor, m, ahead - {last});
      CountBetterConcat(rows[..last], [rows[last]], metricsFor, m);
      assert rows == rows[..last] + [rows[last]];
    }
  }

  lemma {:induction false} CountBetterWithout<T>(rows: seq<T>, k: nat, metricsFor: T -> Metrics, m: Metrics)
    requires k < |rows|
    ensures CountBetter(rows, metricsFor, m)
      == CountBetter(rows[..k] + rows[k + 1..], metricsFor, m) + (if Better(metricsFor(rows[k]), m) then 1 else 0)
  {
    assert rows == rows[..k] + rows[k..];
    assert rows[k..][1..] == rows[k + 1..];
    CountBetterConcat(rows[..k], rows[k..], metricsFor, m);
    CountBetterConcat(rows[..k], rows[k + 1..], metricsFor, m);
  }

  lemma {:induction false} CountBetterPermuted<T>(a: seq<T>, b: seq<T>, metricsFor: T -> Metrics, m: Metrics)
    requires multiset(a) == multiset(b)
    ensures CountBetter(a, metricsFor, m) == CountBetter(b, metricsFor, m)
    decreases |a|
  {
    if a == [] {
      assert |b| == |multiset(b)| == 0;
    } else {
      var k := FindFirstElsewhere(a, b);
      CountBetterWithout(b, k, metricsFor, m);
      CountBetterPermuted(a[1..], b[..k] + b[k + 1..], metricsFor, m);
    }
  }

  /** In official order, the rows ahead of row `i` are exactly the first `first` rows,
      where `first` starts the block of rows officially tied with `i`. */
  lemma {:induction false} CountBetterOfBlock<T(!new)>(sorted: seq<T>, metricsFor: T -> Metrics, first: nat, m: Metrics)
    requires first <= |sorted|
    requires forall k :: 0 <= k < first ==> Better(metricsFor(sorted[k]), m)
    requires forall k :: first <= k < |sorted| ==> !Better(metricsFor(sorted[k]), m)
    ensures CountBetter(sorted, metricsFor, m) == first
    decreases |sorted|
  {
    if sorted != [] {
      CountBetterOfBlock(sorted[1..], metricsFor, if first == 0 then 0 else first - 1, m);
    }
  }

  /** In official order `sorted`, row `index` has exactly `position - 1` rows ahead of it:
      the block of its official ties starts there. */
  ghost predicate HasPosition<T>(sorted: seq<T>, metricsFor: T -> Metrics, index: nat, position: nat)
    requires index < |sorted|
  {
    && 1 <= position <= index + 1
    && (forall k :: 0 <= k < position - 1 ==> Better(metricsFor(sorted[k]), metricsFor(sorted[index])))
    && SameOfficialPosition(metricsFor(sorted[position - 1]), metricsFor(sorted[index]))
  }

  lemma {:induction false} PositionOfNext<T(!new)>(sorted: seq<T>, metricsFor: T -> Metrics, index: nat, position: nat)
    requires Ordered(sorted, ByMetrics(metricsFor))
    requires index + 1 < |sorted| && HasPosition(sorted, metricsFor, index, position)
    ensures HasPosition(sorted, metricsFor, index + 1,
      if SameOfficialPosition(metricsFor(sorted[index + 1]), metricsFor(sorted[index])) then position else index + 2)
  {}

  lemma {:induction false} NoneBetterFromBlock<T(!new)>(sorted: seq<T>, metricsFor: T -> Metrics, index: nat,
                                                 position: nat)
    requires Ordered(sorted, ByMetrics(metricsFor))
    requires index < |sorted| && HasPosition(sorted, metricsFor, index, position)
    ensures CountBetter(sorted, metricsFor, metricsFor(sorted[index])) == position - 1
  {
    forall k | position - 1 <= k < |sorted| ensures !Better(metricsFor(sorted[k]), metricsFor(sorted[index])) {
      assert position - 1 < k ==> ByMetrics(metricsFor)(sorted[position - 1], sorted[k]) <= 0;
    }
    CountBetterOfBlock(sorted, metricsFor, position - 1, metricsFor(sorted[index]));
  }

  /** The counter of the service when it has reached row `index`. */
  function RunningPosition<T>(sorted: seq<T>, metricsFor: T -> Metrics, index: nat): nat
    requires index < |sorted|
  {
    if index == 0 then 1
    else if SameOfficialPosition(metricsFor(sorted[index]), metricsFor(sorted[index - 1]))
    then RunningPosition(sorted, metricsFor, index - 1)
    else index + 1
  }

  lemma {:induction false} RunningPositionHolds<T(!new)>(sorted: seq<T>, metricsFor: T -> Metrics, index: nat)
    requires index < |sorted| && Ordered(sorted, ByMetrics(metricsFor))
    ensures HasPosition(sorted, metricsFor, index, RunningPosition(sorted, metricsFor, index))
  {
    if index > 0 {
      RunningPositionHolds(sorted, metricsFor, index - 1);
      PositionOfNext(sorted, metricsFor, index - 1, RunningPosition(sorted, metricsFor, index - 1));
    }
  }

  lemma {:induction false} RunningPositionCounts<T(!new)>(rows: seq<T>, metricsFor: T -> Metrics, index: nat)
    requires index < |rows|
    ensures RunningPosition(Sort(rows, ByMetrics(metricsFor)), metricsFor, index)
      == Ranking(rows, metricsFor)[index].position
  {
    var sorted := Sort(rows, ByMetrics(metricsFor));
    ByMetricsIsTotal(metricsFor);
    SortOrders(rows, ByMetrics(metricsFor));
    RunningPositionHolds(sorted, metricsFor, index);
    NoneBetterFromBlock(sorted, metricsFor, index, RunningPosition(sorted, metricsFor, index));
    CountBetterPermuted(sorted, rows, metricsFor, metricsFor(sorted[index]));
  }

  /** The running `position` counter of the service computes the specification. */
  method Rank<T(!new)>(rows: seq<T>, metricsFor: T -> Metrics) returns (ranked: seq<Ranked<T>>)
    ensures ranked == Ranking(rows, metricsFor)
  {
    var sorted := Sort(rows, ByMetrics(metricsFor));
    var position := 1;
    ranked := [];
    for index := 0 to |sorted|
      invariant position == if index == 0 then 1 else RunningPosition(sorted, metricsFor, index - 1)
      invariant |ranked| == index
      invariant forall k :: 0 <= k < index ==> ranked[k] == Ranking(rows, metricsFor)[k]
    {
      if index > 0 && !SameOfficialPosition(metricsFor(sorted[index]), metricsFor(sorted[index - 1])) {
        position := index + 1;
      }
      RunningPositionCounts(rows, metricsFor, index);
      ranked := ranked + [Ranked(sorted[index], position)];
    }
  }

  // ---- what the ranking promises ----

  /** The ranking loses and invents nobody. */
  lemma {:induction false} RankingPermutes<T(!new)>(rows: seq<T>, metricsFor: T -> Metrics)
    ensures multiset(Rows(Ranking(rows, metricsFor))) == multiset(rows)
  {
    assert Rows(Ranking(rows, metricsFor)) == Sort(rows, ByMetrics(metricsFor));
  }

  /** Nobody is listed ahead of somebody officially better, positions never decrease, and each
      is one plus the number of rows officially ahead. */
  lemma {:induction false} RankingIsOfficialOrder<T(!new)>(rows: seq<T>, metricsFor: T -> Metrics, i: nat, j: nat)
    requires i < j < |rows|
    ensures !Better(metricsFor(Ranking(rows, metricsFor)[j].row), metricsFor(Ranking(rows, metricsFor)[i].row))
    ensures Ranking(rows, metricsFor)[i].position <= Ranking(rows, metricsFor)[j].position
    ensures Ranking(rows, metricsFor)[j].position
      == 1 + CountBetter(rows, metricsFor, metricsFor(Ranking(rows, metricsFor)[j].row))
  {
    var sorted := Sort(rows, ByMetrics(metricsFor));
    ByMetricsIsTotal(metricsFor);
    SortOrders(rows, ByMetrics(metricsFor));
    assert ByMetrics(metricsFor)(sorted[i], sorted[j]) <= 0;
    CountBetterMonotone(rows, metricsFor, metricsFor(sorted[i]), metricsFor(sorted[j]));
  }

  lemma {:induction false} CountBetterMonotone<T>(rows: seq<T>, metricsFor: T -> Metrics, a: Metrics, b: Metrics)
    requires !Better(b, a)
    ensures CountBetter(rows, metricsFor, a) <= CountBetter(rows, metricsFor, b)
  {
    if rows != [] {
      CountBetterMonotone(rows[1..], metricsFor, a, b);
    }
  }

  /** Two rows share a position exactly when they are officially tied. */
  lemma {:induction false} SharedPositionIsOfficialTie<T(!new)>(rows: seq<T>, metricsFor: T -> Metrics, i: nat, j: nat)
    requires i < j < |rows|
    ensures Ranking(rows, metricsFor)[i].position == Ranking(rows, metricsFor)[j].position
      <==> SameOfficialPosition(metricsFor(Ranking(rows, metricsFor)[i].row),
        metricsFor(Ranking(rows, metricsFor)[j].row))
  {
    var sorted := Sort(rows, ByMetrics(metricsFor));
    var a, b := metricsFor(sorted[i]), metricsFor(sorted[j]);
    RankingIsOfficialOrder(rows, metricsFor, i, j);
    if SameOfficialPosition(a, b) {
      CountBetterMonotone(rows, metricsFor, a, b);
      CountBetterMonotone(rows, metricsFor, b, a);
    } else {
      assert sorted[i] in multiset(sorted);
      CountBetterStrict(rows, metricsFor, a, b, sorted[i]);
    }
  }

  lemma {:induction false} CountBetterStrict<T>(rows: seq<T>, metricsFor: T -> Metrics, a: Metrics, b: Metrics,
                                                ahead: T)
    requires Better(a, b) && ahead in rows && metricsFor(ahead) == a
    ensures CountBetter(rows, metricsFor, a) < CountBetter(rows, metricsFor, b)
  {
    CountBetterMonotone(rows[1..], metricsFor, a, b);
    if rows[0] != ahead {
      CountBetterStrict(rows[1..], metricsFor, a, b, ahead);
    }
  }

  lemma {:induction false} DistinctUsersSeparate<T(!new)>(rows: seq<T>, metricsFor: T -> Metrics)
    requires DistinctUsers(rows, metricsFor)
    ensures Separates(ByMetrics(metricsFor), multiset(rows))
  {}

  /** With distinct users, the ranking does not depend on the order of the input rows. */
  lemma {:induction false} RankingIgnoresRowOrder<T(!new)>(a: seq<T>, b: seq<T>, metricsFor: T -> Metrics)
    requires multiset(a) == multiset(b) && DistinctUsers(a, metricsFor)
    ensures Ranking(a, metricsFor) == Ranking(b, metricsFor)
  {
    var cmp := ByMetrics(metricsFor);
    assert Sort(a, cmp) == Sort(b, cmp) by {
      ByMetricsIsTotal(metricsFor);
      SortOrders(a, cmp);
      SortOrders(b, cmp);
      DistinctUsersSeparate(a, metricsFor);
      OrderedIsUnique(Sort(a, cmp), Sort(b, cmp), cmp);
    }
    forall i | 0 <= i < |Sort(a, cmp)| ensures Ranking(a, metricsFor)[i] == Ranking(b, metricsFor)[i] {
      CountBetterPermuted(a, b, metricsFor, metricsFor(Sort(a, cmp)[i]));
    }
  }

  /** Totals accumulated by a user, as a history row carries them. */
  datatype AccumulatedHits = AccumulatedHits(totalSuperDoubles: int, totalDoubles: int)

  datatype Hits = Hits(superDoubleHits: int, doubleHits: int)

  function CalculateWindowHits(current: Option<AccumulatedHits>, baseline: Option<AccumulatedHits>): Hits {
    var zero := AccumulatedHits(0, 0);
    Hits(
      current.GetOr(zero).totalSuperDoubles - baseline.GetOr(zero).totalSuperDoubles,
      current.GetOr(zero).totalDoubles - baseline.GetOr(zero).totalDoubles)
  }
}
