/** What the payouts of a Mesa promise. */
module PrizeLaws {
  import opened Collections
  import opened JsArray
  import opened Tiebreak
  import opened Apportionment
  import opened Prize

  // ---- the weights of a group add up to what the group pools ----

  lemma {:induction false} ConstantSum(ws: seq<real>, w: real)
    requires forall i :: 0 <= i < |ws| ==> ws[i] == w
    ensures Sum(ws) == |ws| as real * w
  {
    if ws != [] {
      ConstantSum(ws[..|ws| - 1], w);
    }
  }

  lemma {:induction false} PartTimesCount(whole: int, n: nat)
    requires n > 0
    ensures n as real * Part(whole, n) == whole as real
  {}

  lemma {:induction false} PartsMakeWhole(ws: seq<real>, whole: int)
    requires ws != [] && forall i :: 0 <= i < |ws| ==> ws[i] == Part(whole, |ws|)
    ensures Sum(ws) == whole as real
  {
    ConstantSum(ws, Part(whole, |ws|));
    PartTimesCount(whole, |ws|);
  }

  lemma {:induction false} GroupWeighsItsPercentage(d: seq<Item>, rows: seq<PrizeRow>, position: int)
    ensures Sum(Weights(GroupRows(d, rows, position))) == GroupPercentage(d, rows, position) as real
  {
    if Tied(rows, position) != [] && GroupPercentage(d, rows, position) != 0 {
      var ws := Weights(GroupRows(d, rows, position));
      var group := GroupRows(d, rows, position);
      forall i | 0 <= i < |ws| ensures ws[i] == Part(GroupPercentage(d, rows, position), |ws|) {
        assert group[i].weight == GroupWeight(d, rows, position);
      }
      PartsMakeWhole(ws, GroupPercentage(d, rows, position));
    }
  }

  function GroupPercentages(d: seq<Item>, rows: seq<PrizeRow>, positions: seq<int>): (percentages: seq<int>)
    ensures |percentages| == |positions|
  {
    seq(|positions|, i requires 0 <= i < |positions| => GroupPercentage(d, rows, positions[i]))
  }

  /** What the groups at the given positions pool together. */
  function TotalOver(d: seq<Item>, rows: seq<PrizeRow>, positions: seq<int>): int {
    SumInt(GroupPercentages(d, rows, positions))
  }

  lemma {:induction false} TotalOverLast(d: seq<Item>, rows: seq<PrizeRow>, init: seq<int>, last: int)
    ensures TotalOver(d, rows, init + [last]) == TotalOver(d, rows, init) + GroupPercentage(d, rows, last)
  {
    assert GroupPercentages(d, rows, init + [last])[..|init|] == GroupPercentages(d, rows, init);
  }

  lemma {:induction false} WeightsTotal(d: seq<Item>, rows: seq<PrizeRow>, positions: seq<int>)
    ensures Sum(Weights(WeightedOver(d, rows, positions))) == TotalOver(d, rows, positions) as real
  {
    if positions != [] {
      var init, last := positions[..|positions| - 1], positions[|positions| - 1];
      WeightsTotal(d, rows, init);
      GroupWeighsItsPercentage(d, rows, last);
      WeightsConcat(WeightedOver(d, rows, init), GroupRows(d, rows, last));
      TotalOverLast(d, rows, init, last);
      assert positions == init + [last];
    }
  }

  // ---- conservation ----

  lemma {:induction false} PaidOutIsSum(payouts: seq<Payout>, amounts: seq<int>)
    requires |payouts| == |amounts| && forall i :: 0 <= i < |payouts| ==> payouts[i].amount == amounts[i]
    ensures PaidOut(payouts) == SumInt(amounts)
  {
    if payouts != [] {
      PaidOutIsSum(payouts[..|payouts| - 1], amounts[..|amounts| - 1]);
    }
  }

  /** Whenever the groups carry some weight, a positive pool is paid out to the last unit;
      otherwise nothing is paid. */
  lemma {:induction false} PayoutsConservePool(prizePool: int, d: seq<Item>, rows: seq<PrizeRow>)
    ensures PaidOut(Payouts(prizePool, d, rows))
      == if prizePool > 0 && TotalOver(d, rows, Positions(rows)) != 0 then prizePool else 0
  {
    WeightsTotal(d, rows, Positions(rows));
    var ws := Weights(Weighted(d, rows));
    if prizePool > 0 && Sum(ws) != 0.0 {
      AmountsConservePool(prizePool, ws);
      PaidOutIsSum(Payouts(prizePool, d, rows), Amounts(prizePool, ws));
    }
  }

  // ---- who is paid ----

  function PaidRows(weighted: seq<WeightedRow>): (rows: seq<PrizeRow>)
    ensures |rows| == |weighted|
  {
    seq(|weighted|, i requires 0 <= i < |weighted| => weighted[i].row)
  }

  lemma {:induction false} TiedMultiplicity(rows: seq<PrizeRow>, position: int, row: PrizeRow)
    ensures multiset(Tied(rows, position))[row] == if row.position == position then multiset(rows)[row] else 0
  {
    if rows != [] {
      TiedMultiplicity(rows[..|rows| - 1], position, row);
      assert rows == rows[..|rows| - 1] + [rows[|rows| - 1]];
    }
  }

  lemma {:induction false} PositionsAreDistinct(rows: seq<PrizeRow>)
    ensures Distinct(Positions(rows))
  {
    if rows != [] {
      PositionsAreDistinct(rows[..|rows| - 1]);
    }
  }

  lemma {:induction false} PositionsAreThoseOfRows(rows: seq<PrizeRow>)
    ensures forall p :: p in Positions(rows) <==> exists r :: r in rows && r.position == p
  {
    if rows != [] {
      PositionsAreThoseOfRows(rows[..|rows| - 1]);
      assert rows == rows[..|rows| - 1] + [rows[|rows| - 1]];
    }
  }

  lemma {:induction false} GroupRowsMultiplicity(d: seq<Item>, rows: seq<PrizeRow>, position: int, row: PrizeRow)
    ensures multiset(PaidRows(GroupRows(d, rows, position)))[row]
      == if row.position == position && GroupPercentage(d, rows, position) != 0 then multiset(rows)[row] else 0
  {
    TiedMultiplicity(rows, position, row);
    if GroupPercentage(d, rows, position) != 0 {
      assert PaidRows(GroupRows(d, rows, position)) == Tied(rows, position);
    }
  }

  lemma {:induction false} PaidRowsConcat(a: seq<WeightedRow>, b: seq<WeightedRow>, row: PrizeRow)
    ensures multiset(PaidRows(a + b))[row] == multiset(PaidRows(a))[row] + multiset(PaidRows(b))[row]
  {
    assert PaidRows(a + b) == PaidRows(a) + PaidRows(b);
  }

  lemma {:induction false} WeightedMultiplicity(d: seq<Item>, rows: seq<PrizeRow>, positions: seq<int>, row: PrizeRow)
    requires Distinct(positions)
    ensures multiset(PaidRows(WeightedOver(d, rows, positions)))[row]
      == if row.position in positions && GroupPercentage(d, rows, row.position) != 0 then multiset(rows)[row] else 0
  {
    if positions != [] {
      var init, last := positions[..|positions| - 1], positions[|positions| - 1];
      WeightedMultiplicity(d, rows, init, row);
      GroupRowsMultiplicity(d, rows, last, row);
      PaidRowsConcat(WeightedOver(d, rows, init), GroupRows(d, rows, last), row);
      PrefixGrows(positions, |init|);
      assert positions[..|init| + 1] == positions;
    }
  }

  /** Each row takes part in the split once when its group pools a percentage, else never. */
  lemma {:induction false} WeightedRowsExactly(d: seq<Item>, rows: seq<PrizeRow>, row: PrizeRow)
    ensures multiset(PaidRows(Weighted(d, rows)))[row]
      == if GroupPercentage(d, rows, row.position) != 0 then multiset(rows)[row] else 0
  {
    PositionsAreDistinct(rows);
    PositionsAreThoseOfRows(rows);
    WeightedMultiplicity(d, rows, Positions(rows), row);
  }

  // ---- competition positions ----

  /** Rows as a ranking lists them: positions 1, 2, 2, 4, ... */
  ghost predicate CompetitionPositions(rows: seq<PrizeRow>) {
    && (rows != [] ==> rows[0].position == 1)
    && (forall i :: 0 < i < |rows| ==>
      (rows[i].position == rows[i - 1].position || rows[i].position == i + 1))
  }

  function PrizeRows<T>(ranked: seq<Ranked<T>>, metricsFor: T -> Metrics): (rows: seq<PrizeRow>)
    ensures |rows| == |ranked|
  {
    seq(|ranked|, i requires 0 <= i < |ranked| => PrizeRow(metricsFor(ranked[i].row).userId, ranked[i].position))
  }

  /** A ranking produces competition positions. */
  lemma {:induction false} RankingHasCompetitionPositions<T(!new)>(rows: seq<T>, metricsFor: T -> Metrics)
    ensures CompetitionPositions(PrizeRows(Ranking(rows, metricsFor), metricsFor))
  {
    forall i | 0 <= i < |rows|
      ensures Ranking(rows, metricsFor)[i].position == RunningPosition(Sort(rows, ByMetrics(metricsFor)), metricsFor, i)
    {
      RunningPositionCounts(rows, metricsFor, i);
    }
  }

  lemma {:induction false} OneMoreRow(d: seq<Item>, rows: seq<PrizeRow>, row: PrizeRow, position: int)
    ensures Tied(rows + [row], position) == Tied(rows, position) + if row.position == position then [row] else []
    ensures GroupPercentage(d, rows + [row], position) == GroupPercentage(d, rows, position)
      + if row.position == position then Percentage(d, position + |Tied(rows, position)|) else 0
    ensures Positions(rows + [row])
      == if row.position in Positions(rows) then Positions(rows) else Positions(rows) + [row.position]
  {}

  /** Nobody is tied at a position beyond all those listed. */
  lemma {:induction false} LaterPosition(rows: seq<PrizeRow>, position: int)
    requires forall r :: r in rows ==> r.position != position
    ensures Tied(rows, position) == []
  {
    PositionsAreThoseOfRows(rows);
    NobodyTiedElsewhere(rows, position);
  }

  /** The last listed position is occupied by the rows listed from it on. */
  ghost predicate LastGroup(rows: seq<PrizeRow>, last: int) {
    && rows != [] && rows[|rows| - 1].position == last >= 1
    && |Tied(rows, last)| == |rows| - last + 1
    && forall r :: r in rows ==> 1 <= r.position <= last
  }

  lemma {:induction false} LastGroupGrows(rows: seq<PrizeRow>, before: int, row: PrizeRow)
    requires LastGroup(rows, before) && (row.position == before || row.position == |rows| + 1)
    ensures LastGroup(rows + [row], row.position)
  {
    OneMoreRow([], rows, row, row.position);
    assert |Tied(rows, before)| >= 1 by {
      OneIsTied(rows, before);
    }
    if row.position != before {
      LaterPosition(rows, row.position);
    }
  }

  lemma {:induction false} OneIsTied(rows: seq<PrizeRow>, position: int)
    requires rows != [] && rows[|rows| - 1].position == position
    ensures |Tied(rows, position)| >= 1
  {}

  /** In a competition, the last listed position is occupied by the rows listed from it on. */
  lemma {:induction false} LastGroupReachesTheEnd(rows: seq<PrizeRow>)
    requires CompetitionPositions(rows) && rows != []
    ensures LastGroup(rows, rows[|rows| - 1].position)
  {
    var init, last := rows[..|rows| - 1], rows[|rows| - 1];
    assert rows == init + [last];
    if init == [] {
      assert Tied(rows, last.position) == [last];
    } else {
      LastGroupReachesTheEnd(init);
      LastGroupGrows(init, init[|init| - 1].position, last);
    }
  }

  lemma {:induction false} GroupOneMore(d: seq<Item>, rows: seq<PrizeRow>, row: PrizeRow, position: int)
    ensures GroupPercentage(d, rows + [row], position) == GroupPercentage(d, rows, position)
      + if row.position == position then Percentage(d, row.position + |Tied(rows, row.position)|) else 0
  {
    OneMoreRow(d, rows, row, position);
  }

  /** Raising the one entry that belongs to `q` raises the sum by as much. */
  lemma {:induction false} SumRaised(positions: seq<int>, before: seq<int>, after: seq<int>, q: int, raise: int)
    requires Distinct(positions) && |before| == |after| == |positions|
    requires forall i :: 0 <= i < |positions| ==> after[i] == before[i] + if positions[i] == q then raise else 0
    ensures SumInt(after) == SumInt(before) + if q in positions then raise else 0
  {
    if positions != [] {
      var last := |positions| - 1;
      SumRaised(positions[..last], before[..last], after[..last], q, raise);
      PrefixGrows(positions, last);
      assert positions[..last + 1] == positions;
    }
  }

  /** A row after the others adds the percentage of the place it takes. */
  lemma {:induction false} TotalOneMore(d: seq<Item>, rows: seq<PrizeRow>, row: PrizeRow)
    ensures TotalOver(d, rows + [row], Positions(rows + [row])) == TotalOver(d, rows, Positions(rows))
      + Percentage(d, row.position + |Tied(rows, row.position)|)
  {
    var positions := Positions(rows);
    PositionsAreDistinct(rows);
    TotalOverOneMore(d, rows, row, positions, Percentage(d, row.position + |Tied(rows, row.position)|));
    OneMoreRow(d, rows, row, row.position);
    if row.position !in positions {
      NobodyTiedElsewhere(rows, row.position);
      TotalOverLast(d, rows + [row], positions, row.position);
    }
  }

  lemma {:induction false} TotalOverOneMore(d: seq<Item>, rows: seq<PrizeRow>, row: PrizeRow, positions: seq<int>,
                                            raise: int)
    requires Distinct(positions) && raise == Percentage(d, row.position + |Tied(rows, row.position)|)
    ensures TotalOver(d, rows + [row], positions) == TotalOver(d, rows, positions)
      + if row.position in positions then raise else 0
  {
    var before, after := GroupPercentages(d, rows, positions), GroupPercentages(d, rows + [row], positions);
    forall i | 0 <= i < |positions|
      ensures after[i] == before[i] + if positions[i] == row.position then raise else 0
    {
      GroupOneMore(d, rows, row, positions[i]);
    }
    SumRaised(positions, before, after, row.position, raise);
  }

  lemma {:induction false} LastRowTakesTheNextPlace(rows: seq<PrizeRow>, row: PrizeRow)
    requires CompetitionPositions(rows + [row])
    ensures CompetitionPositions(rows)
    ensures row.position + |Tied(rows, row.position)| == |rows| + 1
  {
    var all := rows + [row];
    LastGroupReachesTheEnd(all);
    OneMoreRow([], rows, row, row.position);
    forall i | 0 <= i < |rows| ensures rows[i] == all[i] {}
  }

  /** The groups of a competition tile the positions 1, ..., n: together they pool exactly
      the first n percentages. */
  lemma {:induction false} GroupsTilePositions(d: seq<Item>, rows: seq<PrizeRow>)
    requires CompetitionPositions(rows)
    ensures TotalOver(d, rows, Positions(rows)) == Occupied(d, 1, |rows|)
  {
    if rows != [] {
      var init, last := rows[..|rows| - 1], rows[|rows| - 1];
      assert rows == init + [last];
      LastRowTakesTheNextPlace(init, last);
      GroupsTilePositions(d, init);
      TotalOneMore(d, init, last);
    }
  }

  lemma {:induction false} PercentageOfPosition(d: seq<Item>, position: int)
    requires forall i :: 0 <= i < |d| ==> d[i].position == i + 1
    ensures Percentage(d, position) == if 1 <= position <= |d| then d[position - 1].percentage else 0
  {
    if d != [] {
      PercentageOfPosition(d[..|d| - 1], position);
    }
  }

  lemma {:induction false} OccupiedIsPositive(d: seq<Item>, first: int, count: nat)
    requires IsDistribution(d) && first >= 1
    ensures Occupied(d, first, count) >= 0
    ensures Occupied(d, first, count) > 0 <==> count > 0 && first <= |d|
  {
    if count > 0 {
      OccupiedIsPositive(d, first, count - 1);
      PercentageOfPosition(d, first + count - 1);
    }
  }

  lemma {:induction false} PercentagesTake(d: seq<Item>, k: nat)
    requires k < |d|
    ensures Percentages(d[..k + 1]) == Percentages(d[..k]) + d[k].percentage
  {
    if k > 0 {
      PercentagesTake(d[1..], k - 1);
      assert d[1..][..k] == d[..k + 1][1..] && d[1..][..k - 1] == d[..k][1..];
    }
  }

  lemma {:induction false} FirstPercentages(d: seq<Item>, count: nat)
    requires IsDistribution(d)
    ensures Occupied(d, 1, count) == Percentages(d[..if count < |d| then count else |d|])
  {
    if count > 0 {
      FirstPercentages(d, count - 1);
      PercentageOfPosition(d, count);
      if count <= |d| {
        PercentagesTake(d, count - 1);
      }
    }
  }

  /** On a ranked Mesa with a valid distribution of k prizes: the split is over the first
      min(n, k) percentages, all 100 of them when there are at least k rows. */
  lemma {:induction false} RankedTotalWeight(d: seq<Item>, rows: seq<PrizeRow>)
    requires IsDistribution(d) && CompetitionPositions(rows)
    ensures TotalOver(d, rows, Positions(rows)) == Percentages(d[..if |rows| < |d| then |rows| else |d|])
    ensures |rows| >= |d| ==> TotalOver(d, rows, Positions(rows)) == 100
    ensures rows != [] ==> TotalOver(d, rows, Positions(rows)) > 0
  {
    GroupsTilePositions(d, rows);
    FirstPercentages(d, |rows|);
    OccupiedIsPositive(d, 1, |rows|);
    assert d[..|d|] == d;
  }

  /** ... and a row takes part in it exactly when its position is among the k. */
  lemma {:induction false} RankedRowIsPaidByPosition(d: seq<Item>, rows: seq<PrizeRow>, row: PrizeRow)
    requires IsDistribution(d) && CompetitionPositions(rows) && row in rows
    ensures row in PaidRows(Weighted(d, rows)) <==> row.position <= |d|
  {
    LastGroupReachesTheEnd(rows);
    WeightedRowsExactly(d, rows, row);
    TiedMultiplicity(rows, row.position, row);
    assert row in multiset(Tied(rows, row.position));
    OccupiedIsPositive(d, row.position, |Tied(rows, row.position)|);
    assert row in PaidRows(Weighted(d, rows)) <==> row in multiset(PaidRows(Weighted(d, rows)));
  }

  /** A ranked Mesa with somebody in it pays out the whole of a positive pool. */
  lemma {:induction false} RankedMesaPaysWholePool(prizePool: int, d: seq<Item>, rows: seq<PrizeRow>)
    requires IsDistribution(d) && CompetitionPositions(rows) && rows != [] && prizePool > 0
    ensures PaidOut(Payouts(prizePool, d, rows)) == prizePool
  {
    RankedTotalWeight(d, rows);
    PayoutsConservePool(prizePool, d, rows);
  }

  // ---- fairness ----

  lemma {:induction false} WeightOfPaidRow(d: seq<Item>, rows: seq<PrizeRow>, positions: seq<int>, i: nat)
    requires i < |WeightedOver(d, rows, positions)|
    ensures var w := WeightedOver(d, rows, positions)[i];
      w.row in rows && Tied(rows, w.row.position) != [] && w.weight == GroupWeight(d, rows, w.row.position)
  {
    var init, last := positions[..|positions| - 1], positions[|positions| - 1];
    if i < |WeightedOver(d, rows, init)| {
      WeightOfPaidRow(d, rows, init, i);
    } else {
      var j := i - |WeightedOver(d, rows, init)|;
      assert WeightedOver(d, rows, positions)[i] == GroupRows(d, rows, last)[j];
      assert Tied(rows, last)[j] in Tied(rows, last);
    }
  }

  /** A row of a heavier group is never paid less; of two rows of the same position the
      earlier is paid as much as the later, or one unit more; and every payout is the floor of
      the exact share or that plus one. */
  lemma {:induction false} PayoutsAreFair(prizePool: int, d: seq<Item>, rows: seq<PrizeRow>, i: nat, j: nat)
    requires i < |Payouts(prizePool, d, rows)| && j < |Payouts(prizePool, d, rows)|
    requires TotalOver(d, rows, Positions(rows)) > 0
    ensures var (a, b) := (Payouts(prizePool, d, rows)[i], Payouts(prizePool, d, rows)[j]);
      && Tied(rows, a.position) != [] && Tied(rows, b.position) != []
      && (GroupWeight(d, rows, a.position) > GroupWeight(d, rows, b.position) ==> a.amount >= b.amount)
      && (a.position == b.position && i < j ==> b.amount <= a.amount <= b.amount + 1)
    ensures var a := Payouts(prizePool, d, rows)[i];
      var floor := Quotient(prizePool, GroupWeight(d, rows, a.position),
        TotalOver(d, rows, Positions(rows)) as real).Floor;
      a.amount == floor || a.amount == floor + 1
  {
    WeightsTotal(d, rows, Positions(rows));
    WeightOfPaidRow(d, rows, Positions(rows), i);
    WeightOfPaidRow(d, rows, Positions(rows), j);
    AmountsFollowWeights(prizePool, Weights(Weighted(d, rows)), i, j);
  }

  // ---- the payouts of a ranking, by places ----

  function Smaller(a: int, b: int): int {
    if a < b then a else b
  }

  /** The percentages of the places that so many rows tied at a place occupy. */
  function Pooled(d: seq<Item>, place: int, tied: nat): int
    requires place >= 1
  {
    Percentages(d[Smaller(place - 1, |d|)..Smaller(place - 1 + tied, |d|)])
  }

  /** What one of the rows tied at a place is due, before rounding, when `n` rows are ranked. */
  function ExactShare(pool: int, d: seq<Item>, n: nat, place: int, tied: nat): real
    requires place >= 1 && tied > 0 && Percentages(d[..Smaller(n, |d|)]) > 0
  {
    (pool * Pooled(d, place, tied)) as real / (tied * Percentages(d[..Smaller(n, |d|)])) as real
  }

  /** The users at a place. */
  function UsersAt(rows: seq<PrizeRow>, place: int): set<UserId> {
    set r | r in rows && r.position == place :: r.userId
  }

  function TiedAt(rows: seq<PrizeRow>, place: int): nat {
    |UsersAt(rows, place)|
  }

  ghost predicate DistinctPrizeUsers(rows: seq<PrizeRow>) {
    forall i, j :: 0 <= i < j < |rows| ==> rows[i].userId != rows[j].userId
  }

  lemma {:induction false} OccupiedPercentages(d: seq<Item>, place: int, tied: nat)
    requires IsDistribution(d) && place >= 1
    ensures Occupied(d, place, tied) == Pooled(d, place, tied)
  {
    if tied > 0 {
      OccupiedPercentages(d, place, tied - 1);
      PercentageOfPosition(d, place + tied - 1);
      if place - 1 + tied <= |d| {
        PercentagesTake(d[place - 1..], tied - 1);
        assert d[place - 1..][..tied] == d[place - 1..place - 1 + tied];
        assert d[place - 1..][..tied - 1] == d[place - 1..place - 1 + tied - 1];
      }
    }
  }

  lemma {:induction false} TiedAreCounted(rows: seq<PrizeRow>, place: int)
    requires DistinctPrizeUsers(rows)
    ensures |Tied(rows, place)| == TiedAt(rows, place)
  {
    if rows != [] {
      var init, last := rows[..|rows| - 1], rows[|rows| - 1];
      assert rows == init + [last];
      TiedAreCounted(init, place);
      assert last.userId !in UsersAt(init, place);
      assert UsersAt(rows, place) == UsersAt(init, place) + if last.position == place then {last.userId} else {};
    }
  }

  lemma {:induction false} PartOfTotal(pool: int, pooled: int, tied: nat, total: int)
    requires tied > 0 && total > 0
    ensures pool as real * Part(pooled, tied) / total as real == (pool * pooled) as real / (tied * total) as real
  {
    var (p, g, t, w) := (pool as real, pooled as real, tied as real, total as real);
    assert (p * (g / t) / w) * (t * w) == p * g by {
      assert (g / t) * t == g;
      assert (p * (g / t) / w) * w == p * (g / t);
    }
    assert (pool * pooled) as real == p * g && (tied * total) as real == t * w;
  }

  /** The rows of places up to `k`, in the order of the ranking. */
  function UpTo(rows: seq<PrizeRow>, k: int): (paid: seq<PrizeRow>) {
    if rows == [] then []
    else
      var last := rows[|rows| - 1];
      UpTo(rows[..|rows| - 1], k) + if last.position <= k then [last] else []
  }

  /** The tie groups of places up to `k`, one after the other. */
  function GroupsUpTo(rows: seq<PrizeRow>, positions: seq<int>, k: int): seq<PrizeRow> {
    if positions == [] then []
    else
      var last := positions[|positions| - 1];
      GroupsUpTo(rows, positions[..|positions| - 1], k) + if last <= k then Tied(rows, last) else []
  }

  lemma {:induction false} OtherGroupsStay(rows: seq<PrizeRow>, row: PrizeRow, positions: seq<int>, k: int)
    requires row.position !in positions
    ensures GroupsUpTo(rows + [row], positions, k) == GroupsUpTo(rows, positions, k)
  {
    if positions != [] {
      OtherGroupsStay(rows, row, positions[..|positions| - 1], k);
      OneMoreRow([], rows, row, positions[|positions| - 1]);
    }
  }

  lemma {:induction false} LastPositionGrows(rows: seq<PrizeRow>, before: int, row: PrizeRow)
    requires LastGroup(rows, before) && (row.position == before || row.position == |rows| + 1)
    requires Positions(rows) != [] && Positions(rows)[|Positions(rows)| - 1] == before
    ensures Positions(rows + [row]) != []
    ensures Positions(rows + [row])[|Positions(rows + [row])| - 1] == row.position
  {
    OneMoreRow([], rows, row, row.position);
    OneIsTied(rows, before);
    PositionsAreThoseOfRows(rows);
  }

  /** The last group is that of the last row. */
  lemma {:induction false} LastPosition(rows: seq<PrizeRow>)
    requires CompetitionPositions(rows) && rows != []
    ensures Positions(rows) != [] && Positions(rows)[|Positions(rows)| - 1] == rows[|rows| - 1].position
  {
    var init, last := rows[..|rows| - 1], rows[|rows| - 1];
    if init == [] {
      assert Positions(init) == [];
    } else {
      LastPosition(init);
      LastGroupReachesTheEnd(init);
      LastPositionGrows(init, init[|init| - 1].position, last);
      assert rows == init + [last];
    }
  }

  lemma {:induction false} InitIsCompetition(rows: seq<PrizeRow>)
    requires CompetitionPositions(rows) && rows != []
    ensures CompetitionPositions(rows[..|rows| - 1])
  {}

  /** The last row belongs to the last group, or starts a new one. */
  lemma {:induction false} JoinsTheLastGroup(rows: seq<PrizeRow>, init: seq<PrizeRow>, last: PrizeRow)
    requires CompetitionPositions(rows) && rows == init + [last] && last.position in Positions(init)
    ensures Positions(init) != [] && Positions(init)[|Positions(init)| - 1] == last.position
  {
    LastPosition(rows);
    OneMoreRow([], init, last, last.position);
  }

  lemma {:induction false} GroupsInOrder(rows: seq<PrizeRow>, k: int)
    requires CompetitionPositions(rows)
    ensures GroupsUpTo(rows, Positions(rows), k) == UpTo(rows, k)
  {
    if rows != [] {
      var init, last := rows[..|rows| - 1], rows[|rows| - 1];
      InitIsCompetition(rows);
      GroupsInOrder(init, k);
      assert rows == init + [last];
      if last.position in Positions(init) {
        JoinsTheLastGroup(rows, init, last);
      }
      GroupsOneMore(init, last, k);
    }
  }

  lemma {:induction false} GroupsOneMore(rows: seq<PrizeRow>, row: PrizeRow, k: int)
    requires row.position in Positions(rows) ==> Positions(rows)[|Positions(rows)| - 1] == row.position
    ensures GroupsUpTo(rows + [row], Positions(rows + [row]), k)
      == GroupsUpTo(rows, Positions(rows), k) + if row.position <= k then [row] else []
  {
    var positions := Positions(rows);
    OneMoreRow([], rows, row, row.position);
    PositionsAreDistinct(rows);
    if row.position in positions {
      LastGroupOneMore(rows, row, positions, k);
    } else {
      NobodyTiedElsewhere(rows, row.position);
      NewGroupOneMore(rows, row, positions, k);
    }
  }

  lemma {:induction false} NewGroupOneMore(rows: seq<PrizeRow>, row: PrizeRow, positions: seq<int>, k: int)
    requires row.position !in positions && Tied(rows, row.position) == []
    ensures GroupsUpTo(rows + [row], positions + [row.position], k)
      == GroupsUpTo(rows, positions, k) + if row.position <= k then [row] else []
  {
    OtherGroupsStay(rows, row, positions, k);
    OneMoreRow([], rows, row, row.position);
    assert (positions + [row.position])[..|positions|] == positions;
  }

  lemma {:induction false} LastGroupOneMore(rows: seq<PrizeRow>, row: PrizeRow, positions: seq<int>, k: int)
    requires Distinct(positions) && positions != [] && positions[|positions| - 1] == row.position
    ensures GroupsUpTo(rows + [row], positions, k)
      == GroupsUpTo(rows, positions, k) + if row.position <= k then [row] else []
  {
    OtherGroupsStay(rows, row, positions[..|positions| - 1], k);
    OneMoreRow([], rows, row, row.position);
  }

  lemma {:induction false} AllUpTo(rows: seq<PrizeRow>, k: int)
    requires forall r :: r in rows ==> r.position <= k
    ensures UpTo(rows, k) == rows
  {
    if rows != [] {
      var init, last := rows[..|rows| - 1], rows[|rows| - 1];
      assert rows == init + [last] && last in rows;
      assert forall r :: r in init ==> r in rows;
      AllUpTo(init, k);
    }
  }

  lemma {:induction false} PrefixGoesOn(init: seq<PrizeRow>, last: PrizeRow, k: int)
    requires forall r :: r in init ==> r.position <= last.position
    requires |UpTo(init, k)| <= |init| && UpTo(init, k) == init[..|UpTo(init, k)|]
    requires forall i :: 0 <= i < |init| ==> (i < |UpTo(init, k)| <==> init[i].position <= k)
    ensures var (rows, paid) := (init + [last], UpTo(init + [last], k));
      && |paid| <= |rows| && paid == rows[..|paid|]
      && forall i :: 0 <= i < |rows| ==> (i < |paid| <==> rows[i].position <= k)
  {
    assert (init + [last])[..|init|] == init;
    if last.position <= k {
      AllUpTo(init, k);
      assert UpTo(init + [last], k) == init + [last];
    }
  }

  lemma {:induction false} UpToIsAPrefix(rows: seq<PrizeRow>, k: int)
    requires CompetitionPositions(rows)
    ensures |UpTo(rows, k)| <= |rows| && UpTo(rows, k) == rows[..|UpTo(rows, k)|]
    ensures forall i :: 0 <= i < |rows| ==> (i < |UpTo(rows, k)| <==> rows[i].position <= k)
    decreases |rows|
  {
    if rows != [] {
      var init, last := rows[..|rows| - 1], rows[|rows| - 1];
      InitIsCompetition(rows);
      UpToIsAPrefix(init, k);
      LastGroupReachesTheEnd(rows);
      assert rows == init + [last];
      assert forall r :: r in init ==> r in rows;
      PrefixGoesOn(init, last, k);
    }
  }

  lemma {:induction false} PaidGroup(d: seq<Item>, rows: seq<PrizeRow>, place: int)
    requires IsDistribution(d) && place >= 1
    ensures PaidRows(GroupRows(d, rows, place)) == if place <= |d| then Tied(rows, place) else []
  {
    OccupiedIsPositive(d, place, |Tied(rows, place)|);
  }

  lemma {:induction false} PaidRowsOfBoth(a: seq<WeightedRow>, b: seq<WeightedRow>)
    ensures PaidRows(a + b) == PaidRows(a) + PaidRows(b)
  {}

  lemma {:induction false} PaidGroups(d: seq<Item>, rows: seq<PrizeRow>, positions: seq<int>)
    requires IsDistribution(d) && forall i :: 0 <= i < |positions| ==> positions[i] >= 1
    ensures PaidRows(WeightedOver(d, rows, positions)) == GroupsUpTo(rows, positions, |d|)
  {
    if positions != [] {
      var init, last := positions[..|positions| - 1], positions[|positions| - 1];
      PaidGroups(d, rows, init);
      PaidGroup(d, rows, last);
      PaidRowsOfBoth(WeightedOver(d, rows, init), GroupRows(d, rows, last));
    }
  }

  lemma {:induction false} TakesPartInOrder(d: seq<Item>, rows: seq<PrizeRow>)
    requires IsDistribution(d) && CompetitionPositions(rows)
    ensures PaidRows(Weighted(d, rows)) == UpTo(rows, |d|)
  {
    if rows != [] {
      LastGroupReachesTheEnd(rows);
    }
    PositionsAreThoseOfRows(rows);
    assert forall i :: 0 <= i < |Positions(rows)| ==> Positions(rows)[i] in Positions(rows);
    PaidGroups(d, rows, Positions(rows));
    GroupsInOrder(rows, |d|);
  }

  lemma {:induction false} PaidInOrder(pool: int, d: seq<Item>, rows: seq<PrizeRow>, paid: seq<PrizeRow>)
    requires paid == PaidRows(Weighted(d, rows)) && pool > 0
    requires paid == [] || Sum(Weights(Weighted(d, rows))) != 0.0
    ensures |Payouts(pool, d, rows)| == |paid|
    ensures forall i :: 0 <= i < |paid| ==>
      && Payouts(pool, d, rows)[i].userId == paid[i].userId && Payouts(pool, d, rows)[i].position == paid[i].position
  {}

  /** A ranked Mesa pays the first rows of its ranking, in their order: those placed up to the
      number of prizes. */
  lemma {:induction false} PaysTheFirst(pool: int, d: seq<Item>, rows: seq<PrizeRow>)
    requires IsDistribution(d) && CompetitionPositions(rows) && pool > 0
    ensures |Payouts(pool, d, rows)| <= |rows|
    ensures forall i :: 0 <= i < |rows| ==> (i < |Payouts(pool, d, rows)| <==> rows[i].position <= |d|)
    ensures forall i :: 0 <= i < |Payouts(pool, d, rows)| ==>
      && Payouts(pool, d, rows)[i].userId == rows[i].userId && Payouts(pool, d, rows)[i].position == rows[i].position
  {
    RankedTotalWeight(d, rows);
    WeightsTotal(d, rows, Positions(rows));
    TakesPartInOrder(d, rows);
    PaidInOrder(pool, d, rows, UpTo(rows, |d|));
    UpToIsAPrefix(rows, |d|);
  }

  /** The weight of a paid row of a ranking, and the total of the weights. */
  lemma {:induction false} RankedWeight(d: seq<Item>, rows: seq<PrizeRow>, i: nat)
    requires IsDistribution(d) && CompetitionPositions(rows) && DistinctPrizeUsers(rows) && i < |Weighted(d, rows)|
    ensures i < |rows| && rows[i].position >= 1 && TiedAt(rows, rows[i].position) > 0
    ensures Percentages(d[..Smaller(|rows|, |d|)]) > 0
    ensures Weights(Weighted(d, rows))[i]
      == Part(Pooled(d, rows[i].position, TiedAt(rows, rows[i].position)), TiedAt(rows, rows[i].position))
    ensures Sum(Weights(Weighted(d, rows))) == Percentages(d[..Smaller(|rows|, |d|)]) as real
  {
    TakesPartInOrder(d, rows);
    UpToIsAPrefix(rows, |d|);
    assert PaidRows(Weighted(d, rows))[i] == rows[i];
    RankedTotalWeight(d, rows);
    WeightsTotal(d, rows, Positions(rows));
    WeightOfPaidRow(d, rows, Positions(rows), i);
    LastGroupReachesTheEnd(rows);
    TiedAreCounted(rows, rows[i].position);
    OccupiedPercentages(d, rows[i].position, TiedAt(rows, rows[i].position));
  }

  /** The exact share of a paid row of a ranking. */
  function RankedShare(pool: int, d: seq<Item>, rows: seq<PrizeRow>, i: nat): real
    requires i < |rows| && rows[i].position >= 1 && TiedAt(rows, rows[i].position) > 0
    requires Percentages(d[..Smaller(|rows|, |d|)]) > 0
  {
    ExactShare(pool, d, |rows|, rows[i].position, TiedAt(rows, rows[i].position))
  }

  /** What a weight gets of the pool, of a total of weights. */
  function ShareOf(pool: int, weight: real, sum: real): real
    requires sum != 0.0
  {
    pool as real * weight / sum
  }

  lemma {:induction false} ShareOfWeight(pool: int, d: seq<Item>, n: nat, place: int, tied: nat, weight: real,
                                         sum: real)
    requires place >= 1 && tied > 0 && Percentages(d[..Smaller(n, |d|)]) > 0
    requires weight == Part(Pooled(d, place, tied), tied) && sum == Percentages(d[..Smaller(n, |d|)]) as real
    ensures ShareOf(pool, weight, sum) == ExactShare(pool, d, n, place, tied)
  {
    PartOfTotal(pool, Pooled(d, place, tied), tied, Percentages(d[..Smaller(n, |d|)]));
  }

  lemma {:induction false} RankedShareIsExact(pool: int, d: seq<Item>, rows: seq<PrizeRow>, i: nat, weight: real,
                                              sum: real)
    requires IsDistribution(d) && CompetitionPositions(rows) && DistinctPrizeUsers(rows) && i < |Weighted(d, rows)|
    requires weight == Weights(Weighted(d, rows))[i] && sum == Sum(Weights(Weighted(d, rows))) != 0.0
    ensures i < |rows| && rows[i].position >= 1 && TiedAt(rows, rows[i].position) > 0
    ensures Percentages(d[..Smaller(|rows|, |d|)]) > 0
    ensures ShareOf(pool, weight, sum) == RankedShare(pool, d, rows, i)
  {
    RankedWeight(d, rows, i);
    ShareOfWeight(pool, d, |rows|, rows[i].position, TiedAt(rows, rows[i].position), weight, sum);
  }

  lemma {:induction false} PayoutsAreAmounts(pool: int, d: seq<Item>, rows: seq<PrizeRow>, ws: seq<real>)
    requires ws == Weights(Weighted(d, rows)) && Payouts(pool, d, rows) != []
    ensures Sum(ws) != 0.0 && |Payouts(pool, d, rows)| == |ws| == |Weighted(d, rows)|
    ensures forall i :: 0 <= i < |ws| ==> Payouts(pool, d, rows)[i].amount == Amounts(pool, ws)[i]
  {}

  /** The exact share of entry `i`, by its weight. */
  function WeightedShare(pool: int, ws: seq<real>, i: nat): real
    requires i < |ws| && Sum(ws) != 0.0
  {
    ShareOf(pool, ws[i], Sum(ws))
  }

  lemma {:induction false} SharesOfRanking(pool: int, d: seq<Item>, rows: seq<PrizeRow>, ws: seq<real>, i: nat)
    requires IsDistribution(d) && CompetitionPositions(rows) && DistinctPrizeUsers(rows) && i < |Weighted(d, rows)|
    requires ws == Weights(Weighted(d, rows)) && Sum(ws) != 0.0
    ensures i < |rows| && rows[i].position >= 1 && TiedAt(rows, rows[i].position) > 0
    ensures Percentages(d[..Smaller(|rows|, |d|)]) > 0
    ensures WeightedShare(pool, ws, i) == RankedShare(pool, d, rows, i)
  {
    RankedShareIsExact(pool, d, rows, i, ws[i], Sum(ws));
  }

  lemma {:induction false} WeightedRemainders(pool: int, ws: seq<real>, i: nat, j: nat, x: real, y: real)
    requires Sum(ws) != 0.0 && i < |ws| && j < |ws|
    requires x == WeightedShare(pool, ws, i) && y == WeightedShare(pool, ws, j)
    ensures Amounts(pool, ws)[i] == x.Floor || Amounts(pool, ws)[i] == x.Floor + 1
    ensures Amounts(pool, ws)[i] == x.Floor + 1 && Amounts(pool, ws)[j] == y.Floor ==>
      || x - x.Floor as real > y - y.Floor as real
      || (x - x.Floor as real == y - y.Floor as real && i < j)
  {
    AmountsStayInQuota(pool, ws, i);
    LargestRemaindersFirst(pool, ws, i, j);
  }

  /** The payouts of a ranked Mesa, in the terms of places and percentages: the exact share rounded
      down, plus one unit for those with the largest fractions, the earlier in the ranking first.
      Adding up to the pool, they are determined by that. */
  lemma {:induction false} RankedPayouts(pool: int, d: seq<Item>, rows: seq<PrizeRow>, payouts: seq<Payout>, i: nat,
                                         j: nat) returns (x: real, y: real)
    requires IsDistribution(d) && CompetitionPositions(rows) && DistinctPrizeUsers(rows)
    requires payouts == Payouts(pool, d, rows) && i < |payouts| && j < |payouts|
    ensures i < |rows| && rows[i].position >= 1 && TiedAt(rows, rows[i].position) > 0
    ensures j < |rows| && rows[j].position >= 1 && TiedAt(rows, rows[j].position) > 0
    ensures Percentages(d[..Smaller(|rows|, |d|)]) > 0
    ensures x == RankedShare(pool, d, rows, i) && y == RankedShare(pool, d, rows, j)
    ensures payouts[i].amount == x.Floor || payouts[i].amount == x.Floor + 1
    ensures payouts[i].amount == x.Floor + 1 && payouts[j].amount == y.Floor ==>
      || x - x.Floor as real > y - y.Floor as real
      || (x - x.Floor as real == y - y.Floor as real && i < j)
  {
    var ws := Weights(Weighted(d, rows));
    PayoutsAreAmounts(pool, d, rows, ws);
    SharesOfRanking(pool, d, rows, ws, i);
    SharesOfRanking(pool, d, rows, ws, j);
    x, y := RankedShare(pool, d, rows, i), RankedShare(pool, d, rows, j);
    WeightedRemainders(pool, ws, i, j, x, y);
  }
}
