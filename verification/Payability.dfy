/** When every payout of a ranked Mesa is worth something, which the ledger demands of it. */
module Payability {
  import opened Collections
  import opened Tiebreak
  import opened Apportionment
  import opened Prize
  import opened PrizeLaws

  /** Every payout is worth something. */
  ghost predicate Payable(payouts: seq<Payout>) {
    forall p :: p in payouts ==> p.amount > 0
  }

  lemma {:induction false} PayableLast(payouts: seq<Payout>)
    requires payouts != []
    ensures Payable(payouts) <==> Payable(payouts[..|payouts| - 1]) && payouts[|payouts| - 1].amount > 0
  {
    assert payouts == payouts[..|payouts| - 1] + [payouts[|payouts| - 1]];
  }

  // ---- shares ----

  lemma {:induction false} ShareIsNotNegative(p: int, w: real, t: real)
    requires p >= 0 && w >= 0.0 && t > 0.0
    ensures Quotient(p, w, t) >= 0.0 && Quotient(p, w, t).Floor >= 0
  {}

  lemma {:induction false} PartIsNotNegative(whole: int, n: nat)
    requires whole >= 0 && n > 0
    ensures Part(whole, n) >= 0.0
  {}

  lemma {:induction false} ScaledUp(a: real, b: real, scale: real)
    requires scale > 0.0
    ensures a >= b <==> a * scale >= b * scale
  {}

  lemma {:induction false} PartTimes(p: int, whole: int, n: nat)
    requires n > 0
    ensures p as real * Part(whole, n) * n as real == (p * whole) as real
  {
    PartTimesCount(whole, n);
    assert p as real * Part(whole, n) * n as real == p as real * (n as real * Part(whole, n));
  }

  lemma {:induction false} ProductIsReal(n: nat, t: int)
    ensures t as real * n as real == (n * t) as real
  {}

  /** An equal part of a group's share reaches one unit exactly when the pool does over all. */
  lemma {:induction false} ShareReachesOne(p: int, whole: int, n: nat, t: int)
    requires n > 0 && t > 0
    ensures Quotient(p, Part(whole, n), t as real) >= 1.0 <==> p * whole >= n * t
  {
    QuotientTimes(p, Part(whole, n), t as real);
    ScaledUp(Quotient(p, Part(whole, n), t as real), 1.0, t as real);
    ScaledUp(p as real * Part(whole, n), t as real, n as real);
    PartTimes(p, whole, n);
    ProductIsReal(n, t);
  }

  /** The exact share of a row at the position reaches one unit. */
  predicate ReachesOne(pool: int, d: seq<Item>, rows: seq<PrizeRow>, position: int) {
    pool * GroupPercentage(d, rows, position) >= |Tied(rows, position)| * TotalOver(d, rows, Positions(rows))
  }

  /** The `i`th paid row is served one of the units that rounding down has left. */
  predicate ServedLeftover(pool: int, d: seq<Item>, rows: seq<PrizeRow>, i: nat)
    requires Sum(Weights(Weighted(d, rows))) != 0.0 && i < |Weighted(d, rows)|
  {
    var exacts := Exacts(pool, Weights(Weighted(d, rows)));
    Turn(Remainders(exacts), i) < pool - SumInt(Floors(exacts))
  }

  lemma {:induction false} RankedWeights(d: seq<Item>, rows: seq<PrizeRow>)
    requires IsDistribution(d) && CompetitionPositions(rows) && rows != []
    ensures TotalOver(d, rows, Positions(rows)) > 0
    ensures Sum(Weights(Weighted(d, rows))) == TotalOver(d, rows, Positions(rows)) as real
  {
    RankedTotalWeight(d, rows);
    WeightsTotal(d, rows, Positions(rows));
  }

  /** The exact share of a paid row. */
  lemma {:induction false} ShareOfPaidRow(pool: int, d: seq<Item>, rows: seq<PrizeRow>, i: nat)
    requires IsDistribution(d) && CompetitionPositions(rows) && rows != [] && pool >= 0
    requires Sum(Weights(Weighted(d, rows))) == TotalOver(d, rows, Positions(rows)) as real > 0.0
    requires i < |Weighted(d, rows)|
    ensures var position := Weighted(d, rows)[i].row.position;
      && Exacts(pool, Weights(Weighted(d, rows)))[i] >= 0.0
      && (Exacts(pool, Weights(Weighted(d, rows)))[i] >= 1.0 <==> ReachesOne(pool, d, rows, position))
  {
    var w, total := Weighted(d, rows)[i], TotalOver(d, rows, Positions(rows));
    WeightOfPaidRow(d, rows, Positions(rows), i);
    LastGroupReachesTheEnd(rows);
    var n, whole := |Tied(rows, w.row.position)|, GroupPercentage(d, rows, w.row.position);
    OccupiedIsPositive(d, w.row.position, n);
    PartIsNotNegative(whole, n);
    ShareIsNotNegative(pool, Part(whole, n), total as real);
    ShareReachesOne(pool, whole, n, total);
  }

  lemma {:induction false} RoundedIsPositive(pool: int, exacts: seq<real>, i: nat)
    requires i < |exacts| && exacts[i] >= 0.0
    ensures Rounded(pool, exacts)[i] >= 0
    ensures Rounded(pool, exacts)[i] > 0
      <==> exacts[i] >= 1.0 || Turn(Remainders(exacts), i) < pool - SumInt(Floors(exacts))
  {}

  /** A payout of a ranked Mesa is never negative, and is worth something exactly when the exact
      share reaches one unit or the row is served one of the units left over. */
  lemma {:induction false} PayoutIsPositiveExactly(pool: int, d: seq<Item>, rows: seq<PrizeRow>, i: nat)
    requires IsDistribution(d) && CompetitionPositions(rows) && rows != [] && i < |Payouts(pool, d, rows)|
    ensures i < |Weighted(d, rows)| && Sum(Weights(Weighted(d, rows))) != 0.0
    ensures var payout := Payouts(pool, d, rows)[i];
      && payout.amount >= 0
      && (payout.amount > 0 <==> ReachesOne(pool, d, rows, payout.position) || ServedLeftover(pool, d, rows, i))
  {
    RankedWeights(d, rows);
    ShareOfPaidRow(pool, d, rows, i);
    RoundedIsPositive(pool, Exacts(pool, Weights(Weighted(d, rows))), i);
  }

  /** All payouts of a ranked Mesa are worth something exactly when every row of a paid position
      whose exact share falls short of one unit is served one of the units left over. */
  lemma {:induction false} PayableExactly(pool: int, d: seq<Item>, rows: seq<PrizeRow>)
    requires IsDistribution(d) && CompetitionPositions(rows) && rows != [] && pool > 0
    ensures Sum(Weights(Weighted(d, rows))) != 0.0
    ensures Payable(Payouts(pool, d, rows)) <==>
      forall i :: 0 <= i < |Weighted(d, rows)| && !ReachesOne(pool, d, rows, Weighted(d, rows)[i].row.position)
        ==> ServedLeftover(pool, d, rows, i)
  {
    RankedWeights(d, rows);
    var payouts := Payouts(pool, d, rows);
    forall i | 0 <= i < |payouts|
      ensures payouts[i] in payouts && payouts[i].position == Weighted(d, rows)[i].row.position
      ensures payouts[i].amount > 0
        <==> ReachesOne(pool, d, rows, payouts[i].position) || ServedLeftover(pool, d, rows, i)
    {
      PayoutIsPositiveExactly(pool, d, rows, i);
    }
    if Payable(payouts) {
      forall i | 0 <= i < |Weighted(d, rows)| && !ReachesOne(pool, d, rows, Weighted(d, rows)[i].row.position)
        ensures ServedLeftover(pool, d, rows, i)
      {
        assert payouts[i].amount > 0;
      }
    }
  }

  // ---- when the pool is too small, and when it is large enough ----

  lemma {:induction false} PayableCosts(payouts: seq<Payout>)
    requires Payable(payouts)
    ensures PaidOut(payouts) >= |payouts|
  {
    if payouts != [] {
      PayableLast(payouts);
      PayableCosts(payouts[..|payouts| - 1]);
    }
  }

  /** A pool with fewer units than rows to be paid always leaves some row with nothing. */
  lemma {:induction false} TooSmallPool(pool: int, d: seq<Item>, rows: seq<PrizeRow>)
    requires IsDistribution(d) && CompetitionPositions(rows) && rows != []
    requires 0 < pool < |Weighted(d, rows)|
    ensures !Payable(Payouts(pool, d, rows))
  {
    RankedWeights(d, rows);
    RankedMesaPaysWholePool(pool, d, rows);
    if Payable(Payouts(pool, d, rows)) {
      PayableCosts(Payouts(pool, d, rows));
    }
  }

  lemma {:induction false} AtLeastOnePercent(pool: int, whole: int, n: nat, count: nat, total: int)
    requires pool >= 100 * count && whole >= 1 && n <= count && 0 <= total <= 100
    ensures pool * whole >= n * total
  {
    assert n * total <= count * 100;
    assert pool * whole >= pool;
  }

  lemma {:induction false} PercentagesArePositive(d: seq<Item>)
    requires forall i :: 0 <= i < |d| ==> d[i].percentage > 0
    ensures Percentages(d) >= 0
  {
    if d != [] {
      PercentagesArePositive(d[1..]);
    }
  }

  lemma {:induction false} PercentagesSplit(d: seq<Item>, k: nat)
    requires k <= |d|
    ensures Percentages(d) == Percentages(d[..k]) + Percentages(d[k..])
  {
    if k > 0 {
      PercentagesSplit(d[1..], k - 1);
      assert d[..k][1..] == d[1..][..k - 1] && d[1..][k - 1..] == d[k..];
    } else {
      assert d[..0] == [] && d[0..] == d;
    }
  }

  lemma {:induction false} TotalIsAtMostAll(d: seq<Item>, rows: seq<PrizeRow>)
    requires IsDistribution(d) && CompetitionPositions(rows)
    ensures TotalOver(d, rows, Positions(rows)) <= 100
  {
    var k := if |rows| < |d| then |rows| else |d|;
    RankedTotalWeight(d, rows);
    PercentagesSplit(d, k);
    PercentagesArePositive(d[k..]);
  }

  /** With a hundred units for every participant nobody who is paid goes without. */
  lemma {:induction false} LargePoolPays(pool: int, d: seq<Item>, rows: seq<PrizeRow>)
    requires IsDistribution(d) && CompetitionPositions(rows) && rows != [] && pool >= 100 * |rows|
    ensures Payable(Payouts(pool, d, rows))
  {
    RankedWeights(d, rows);
    TotalIsAtMostAll(d, rows);
    forall i | 0 <= i < |Payouts(pool, d, rows)| ensures Payouts(pool, d, rows)[i].amount > 0 {
      PayoutIsPositiveExactly(pool, d, rows, i);
      WeightOfPaidRow(d, rows, Positions(rows), i);
      var position := Payouts(pool, d, rows)[i].position;
      var n := |Tied(rows, position)|;
      LastGroupReachesTheEnd(rows);
      OccupiedIsPositive(d, position, n);
      PaidRowHasAShare(d, rows, Positions(rows), i);
      AtLeastOnePercent(pool, GroupPercentage(d, rows, position), n, |rows|, TotalOver(d, rows, Positions(rows)));
    }
  }

  lemma {:induction false} PaidRowHasAShare(d: seq<Item>, rows: seq<PrizeRow>, positions: seq<int>, i: nat)
    requires i < |WeightedOver(d, rows, positions)|
    ensures GroupPercentage(d, rows, WeightedOver(d, rows, positions)[i].row.position) != 0
  {
    var init, last := positions[..|positions| - 1], positions[|positions| - 1];
    if i < |WeightedOver(d, rows, init)| {
      PaidRowHasAShare(d, rows, init, i);
    } else {
      var j := i - |WeightedOver(d, rows, init)|;
      assert Tied(rows, last)[j] in Tied(rows, last);
    }
  }

  // ---- an accepted distribution that leaves the second with nothing ----

  const NINETY_NINE_TO_ONE := [Item(1, 99), Item(2, 1)]

  lemma {:induction false} TwoRows(first: UserId, second: UserId)
    ensures var rows := [PrizeRow(first, 1), PrizeRow(second, 2)];
      && Tied(rows, 1) == [rows[0]] && Tied(rows, 2) == [rows[1]] && Positions(rows) == [1, 2]
  {
    var (a, b) := (PrizeRow(first, 1), PrizeRow(second, 2));
    assert [a] == [] + [a] && [a, b] == [a] + [b];
    OneMoreRow([], [], a, 1);
    OneMoreRow([], [], a, 2);
    OneMoreRow([], [a], b, 1);
    OneMoreRow([], [a], b, 2);
  }

  lemma {:induction false} GroupOfOne(d: seq<Item>, rows: seq<PrizeRow>, row: PrizeRow, percentage: int)
    requires Tied(rows, row.position) == [row] && Occupied(d, row.position, 1) == percentage > 0
    ensures GroupRows(d, rows, row.position) == [WeightedRow(row, percentage as real)]
  {
    assert |Tied(rows, row.position)| == 1 && GroupPercentage(d, rows, row.position) == percentage;
    assert GroupWeight(d, rows, row.position) == Part(percentage, 1) == percentage as real;
    assert GroupRows(d, rows, row.position)[0] == WeightedRow(row, percentage as real);
  }

  lemma {:induction false} SumOfTwo(a: real, b: real)
    ensures Sum([a, b]) == a + b
  {
    assert [a, b][..1] == [a] && [a][..0] == [];
    assert Sum([a]) == a;
  }

  lemma {:induction false} TwoGroups(d: seq<Item>, rows: seq<PrizeRow>)
    ensures WeightedOver(d, rows, [1, 2]) == GroupRows(d, rows, 1) + GroupRows(d, rows, 2)
  {
    assert [1, 2][..1] == [1] && [1][..0] == [];
    assert WeightedOver(d, rows, [1]) == WeightedOver(d, rows, []) + GroupRows(d, rows, 1);
  }

  lemma {:induction false} NinetyNineToOne()
    ensures IsDistribution(NINETY_NINE_TO_ONE)
    ensures ValidateDistribution(AsJson(NINETY_NINE_TO_ONE)) == Ok(NINETY_NINE_TO_ONE)
    ensures Occupied(NINETY_NINE_TO_ONE, 1, 1) == 99 && Occupied(NINETY_NINE_TO_ONE, 2, 1) == 1
  {
    var d := NINETY_NINE_TO_ONE;
    assert d[1..] == [Item(2, 1)] && d[1..][1..] == [];
    assert Percentages(d) == 100;
    ValidDistributionsExactly(AsJson(d), d);
    PercentageOfPosition(d, 1);
    PercentageOfPosition(d, 2);
  }

  /** Two players without a tie, a pool of two units and the accepted distribution 99 to 1: the
      second is paid nothing. */
  lemma {:induction false} SecondGetsNothing(first: UserId, second: UserId)
    ensures var rows := [PrizeRow(first, 1), PrizeRow(second, 2)];
      Payouts(2, NINETY_NINE_TO_ONE, rows) == [Payout(first, 1, 2), Payout(second, 2, 0)]
  {
    var d, rows := NINETY_NINE_TO_ONE, [PrizeRow(first, 1), PrizeRow(second, 2)];
    TwoRows(first, second);
    NinetyNineToOne();
    GroupOfOne(d, rows, rows[0], 99);
    GroupOfOne(d, rows, rows[1], 1);
    TwoGroups(d, rows);
    assert Weighted(d, rows) == [WeightedRow(rows[0], 99.0), WeightedRow(rows[1], 1.0)];
    var ws := Weights(Weighted(d, rows));
    assert ws == [99.0, 1.0];
    SumOfTwo(99.0, 1.0);
    var exacts := Exacts(2, ws);
    assert exacts == [1.98, 0.02];
    var floors := Floors(exacts);
    assert floors == [1, 0] && floors[..1] == [1] && [1][..0] == [];
    assert SumInt([1]) == 1 && SumInt(floors) == 1;
    FirstBeforeSecond(Remainders(exacts));
  }

  lemma {:induction false} FirstBeforeSecond(rs: seq<real>)
    requires |rs| == 2 && rs[0] > rs[1]
    ensures Turn(rs, 0) == 0 && Turn(rs, 1) == 1
  {
    assert (set j: nat | j < |rs| && ServedBefore(rs, j, 0)) == {};
    assert (set j: nat | j < |rs| && ServedBefore(rs, j, 1)) == {0};
  }
}
