/** Prize distributions, the prize pool and the payouts of a settled Mesa. */
module Prize {
  import opened Collections
  import opened Tiebreak
  import opened Apportionment

  datatype Item = Item(position: int, percentage: int)

  /** A JSON value as the distribution reader sees it; `None` stands for anything `Number`
      does not turn into an integer. */
  datatype Json = NotAnArray | Array(items: seq<RawItem>)
  datatype RawItem = RawItem(position: Option<int>, percentage: Option<int>)

  datatype DistributionError = NoItems | PositionsNotSequential | PercentageNotPositive | NotOneHundred

  datatype PrizeRow = PrizeRow(userId: UserId, position: int)
  datatype Payout = Payout(userId: UserId, position: int, amount: int)
  datatype Pool = Pool(platformFee: int, prizePool: int)
  datatype WeightedRow = WeightedRow(row: PrizeRow, weight: real)

  // ---- distributions ----

  function ReadItems(items: seq<RawItem>, index: nat): Result<seq<Item>, DistributionError>
    requires index <= |items|
    decreases |items| - index
  {
    if index == |items| then Ok([])
    else if items[index].position != Some(index + 1) then Err(PositionsNotSequential)
    else if items[index].percentage.None? || items[index].percentage.value <= 0 then Err(PercentageNotPositive)
    else
      var rest := ReadItems(items, index + 1);
      if rest.Err? then rest
      else Ok([Item(index + 1, items[index].percentage.value)] + rest.value)
  }

  function Percentages(d: seq<Item>): int {
    if d == [] then 0 else d[0].percentage + Percentages(d[1..])
  }

  function ValidateDistribution(value: Json): Result<seq<Item>, DistributionError> {
    if value.NotAnArray? || value.items == [] then Err(NoItems)
    else
      var read := ReadItems(value.items, 0);
      if read.Ok? && Percentages(read.value) != 100 then Err(NotOneHundred) else read
  }

  /** What a distribution must be: positions 1, 2, ..., k, positive percentages adding up to 100. */
  ghost predicate IsDistribution(d: seq<Item>) {
    && d != []
    && (forall i :: 0 <= i < |d| ==> d[i].position == i + 1 && d[i].percentage > 0)
    && Percentages(d) == 100
  }

  function AsJson(d: seq<Item>): Json {
    Array(seq(|d|, i requires 0 <= i < |d| => RawItem(Some(d[i].position), Some(d[i].percentage))))
  }

  lemma {:induction false} ReadItemsExactly(items: seq<RawItem>, index: nat)
    requires index <= |items|
    ensures ReadItems(items, index).Ok? <==> forall i :: index <= i < |items| ==>
      (items[i].position == Some(i + 1) && items[i].percentage.Some? && items[i].percentage.value > 0)
    ensures ReadItems(items, index).Ok? ==>
      var d := ReadItems(items, index).value;
      && |d| == |items| - index
      && forall i :: 0 <= i < |d| ==> d[i] == Item(index + i + 1, items[index + i].percentage.value)
    decreases |items| - index
  {
    if index < |items| {
      ReadItemsExactly(items, index + 1);
    }
  }

  /** The validator accepts exactly the distributions, and returns them unchanged. */
  lemma {:induction false} ValidDistributionsExactly(value: Json, d: seq<Item>)
    ensures ValidateDistribution(value) == Ok(d) <==> IsDistribution(d) && value == AsJson(d)
  {
    if value.Array? {
      ReadItemsExactly(value.items, 0);
      if ValidateDistribution(value) == Ok(d) {
        assert value.items == AsJson(d).items;
      }
      if IsDistribution(d) && value == AsJson(d) {
        assert ReadItems(value.items, 0).value == d;
      }
    }
  }

  lemma {:induction false} ReadErrorIsTrue(items: seq<RawItem>, index: nat)
    requires index <= |items| && ReadItems(items, index).Err?
    ensures ReadItems(items, index).error == PositionsNotSequential
      ==> exists i :: 0 <= i < |items| && items[i].position != Some(i + 1)
    ensures ReadItems(items, index).error == PercentageNotPositive
      ==> exists i :: 0 <= i < |items| && items[i].percentage.GetOr(0) <= 0
    ensures ReadItems(items, index).error in {PositionsNotSequential, PercentageNotPositive}
    decreases |items| - index
  {
    if items[index].position == Some(index + 1) && items[index].percentage.GetOr(0) > 0 {
      ReadErrorIsTrue(items, index + 1);
    }
  }

  /** A refused distribution has the fault that the refusal names. */
  lemma {:induction false} DistributionErrorIsTrue(value: Json)
    requires ValidateDistribution(value).Err?
    ensures match ValidateDistribution(value).error
      case NoItems => value.NotAnArray? || value.items == []
      case PositionsNotSequential =>
        value.Array? && exists i :: 0 <= i < |value.items| && value.items[i].position != Some(i + 1)
      case PercentageNotPositive =>
        value.Array? && exists i :: 0 <= i < |value.items| && value.items[i].percentage.GetOr(0) <= 0
      case NotOneHundred => exists d :: value == AsJson(d) && Percentages(d) != 100
  {
    if value.Array? && value.items != [] {
      ReadItemsExactly(value.items, 0);
      if ReadItems(value.items, 0).Err? {
        ReadErrorIsTrue(value.items, 0);
      } else {
        var d := ReadItems(value.items, 0).value;
        assert value.items == AsJson(d).items;
      }
    }
  }

  /** Ten percent of what was collected, rounded down, is the platform's; the rest is the prize. */
  function CalculatePool(grossCollected: int): (pool: Pool)
    ensures pool.platformFee + pool.prizePool == grossCollected
    ensures 10 * pool.platformFee <= grossCollected < 10 * pool.platformFee + 10
  {
    var platformFee := grossCollected / 10;
    Pool(platformFee, grossCollected - platformFee)
  }

  // ---- specification of the payouts ----

  /** The percentage of a position; the last entry for a position counts. */
  function Percentage(d: seq<Item>, position: int): int {
    if d == [] then 0
    else if d[|d| - 1].position == position then d[|d| - 1].percentage
    else Percentage(d[..|d| - 1], position)
  }

  /** The percentages of `count` positions from `first` on. */
  function Occupied(d: seq<Item>, first: int, count: nat): int {
    if count == 0 then 0 else Occupied(d, first, count - 1) + Percentage(d, first + count - 1)
  }

  /** The rows tied at a position, in input order. */
  function Tied(rows: seq<PrizeRow>, position: int): (tied: seq<PrizeRow>)
    ensures |tied| <= |rows|
    ensures forall r :: r in tied ==> r in rows && r.position == position
  {
    if rows == [] then []
    else
      var last := rows[|rows| - 1];
      Tied(rows[..|rows| - 1], position) + (if last.position == position then [last] else [])
  }

  /** The positions that occur, in order of first appearance. */
  function Positions(rows: seq<PrizeRow>): (positions: seq<int>) {
    if rows == [] then []
    else
      var before := Positions(rows[..|rows| - 1]);
      var position := rows[|rows| - 1].position;
      if position in before then before else before + [position]
  }

  /** A group of n rows tied at p pools the percentages of positions p, ..., p + n - 1. */
  function GroupPercentage(d: seq<Item>, rows: seq<PrizeRow>, position: int): int {
    Occupied(d, position, |Tied(rows, position)|)
  }

  /** One of `n` equal parts. */
  function Part(whole: int, n: nat): real
    requires n > 0
  {
    whole as real / n as real
  }

  /** Each row of a group weighs its part of what the group pools. */
  function GroupWeight(d: seq<Item>, rows: seq<PrizeRow>, position: int): real
    requires Tied(rows, position) != []
  {
    Part(GroupPercentage(d, rows, position), |Tied(rows, position)|)
  }

  function GroupRows(d: seq<Item>, rows: seq<PrizeRow>, position: int): seq<WeightedRow> {
    var tied := Tied(rows, position);
    if GroupPercentage(d, rows, position) == 0 then []
    else seq(|tied|, i requires 0 <= i < |tied| => WeightedRow(tied[i], GroupWeight(d, rows, position)))
  }

  function WeightedOver(d: seq<Item>, rows: seq<PrizeRow>, positions: seq<int>): seq<WeightedRow> {
    if positions == [] then []
    else WeightedOver(d, rows, positions[..|positions| - 1]) + GroupRows(d, rows, positions[|positions| - 1])
  }

  /** The rows that take part in the split, group by group. */
  function Weighted(d: seq<Item>, rows: seq<PrizeRow>): seq<WeightedRow> {
    WeightedOver(d, rows, Positions(rows))
  }

  function Weights(weighted: seq<WeightedRow>): (ws: seq<real>)
    ensures |ws| == |weighted|
  {
    seq(|weighted|, i requires 0 <= i < |weighted| => weighted[i].weight)
  }

  function Payouts(prizePool: int, d: seq<Item>, rows: seq<PrizeRow>): seq<Payout> {
    var weighted := Weighted(d, rows);
    if prizePool <= 0 || Sum(Weights(weighted)) == 0.0 then []
    else
      var amounts := Amounts(prizePool, Weights(weighted));
      seq(|weighted|, i requires 0 <= i < |weighted| =>
        Payout(weighted[i].row.userId, weighted[i].row.position, amounts[i]))
  }

  function PaidOut(payouts: seq<Payout>): int {
    if payouts == [] then 0 else PaidOut(payouts[..|payouts| - 1]) + payouts[|payouts| - 1].amount
  }

  // ---- the service's loops ----

  method ReadPercentages(d: seq<Item>) returns (percentages: map<int, int>)
    ensures forall p :: (if p in percentages then percentages[p] else 0) == Percentage(d, p)
  {
    percentages := map[];
    for k := 0 to |d|
      invariant forall p :: (if p in percentages then percentages[p] else 0) == Percentage(d[..k], p)
    {
      percentages := percentages[d[k].position := d[k].percentage];
      assert d[..k + 1][..k] == d[..k];
    }
    assert d[..|d|] == d;
  }

  /** The JavaScript `Map` of groups: its keys in insertion order, and a value for each. */
  ghost predicate IsGrouping(keys: seq<int>, groups: map<int, seq<PrizeRow>>, rows: seq<PrizeRow>) {
    && keys == Positions(rows)
    && (forall p :: p in keys <==> p in groups)
    && (forall p :: p in groups ==> groups[p] == Tied(rows, p))
  }

  lemma {:induction false} KeysHaveGroups(keys: seq<int>, groups: map<int, seq<PrizeRow>>, rows: seq<PrizeRow>, k: nat)
    requires IsGrouping(keys, groups, rows) && k < |keys|
    ensures keys[k] in groups
  {
    var p := keys[k];
    assert p in keys;
  }

  lemma {:induction false} NobodyTiedElsewhere(rows: seq<PrizeRow>, position: int)
    requires position !in Positions(rows)
    ensures Tied(rows, position) == []
  {
    if rows != [] {
      NobodyTiedElsewhere(rows[..|rows| - 1], position);
    }
  }

  lemma {:induction false} GroupingGrows(keys: seq<int>, groups: map<int, seq<PrizeRow>>, rows: seq<PrizeRow>,
                                         row: PrizeRow)
    requires IsGrouping(keys, groups, rows)
    ensures IsGrouping(
      if row.position in groups then keys else keys + [row.position],
      groups[row.position := (if row.position in groups then groups[row.position] else []) + [row]],
      rows + [row])
  {
    assert (rows + [row])[..|rows|] == rows;
    if row.position !in groups {
      NobodyTiedElsewhere(rows, row.position);
    }
  }

  method GroupByPosition(rows: seq<PrizeRow>) returns (keys: seq<int>, groups: map<int, seq<PrizeRow>>)
    ensures IsGrouping(keys, groups, rows)
  {
    keys, groups := [], map[];
    for k := 0 to |rows|
      invariant IsGrouping(keys, groups, rows[..k])
    {
      var row := rows[k];
      GroupingGrows(keys, groups, rows[..k], row);
      TakeNext(rows, k);
      if row.position !in groups {
        keys := keys + [row.position];
      }
      var group := if row.position in groups then groups[row.position] else [];
      groups := groups[row.position := group + [row]];
    }
    assert rows[..|rows|] == rows;
  }

  method GroupTotal(percentages: map<int, int>, position: int, count: nat, ghost d: seq<Item>) returns (total: int)
    requires forall p :: (if p in percentages then percentages[p] else 0) == Percentage(d, p)
    ensures total == Occupied(d, position, count)
  {
    total := 0;
    for k := 0 to count
      invariant total == Occupied(d, position, k)
    {
      total := total + (if position + k in percentages then percentages[position + k] else 0);
    }
  }

  method WeighGroup(tiedRows: seq<PrizeRow>, weight: real, totalBefore: real)
    returns (group: seq<WeightedRow>, totalWeight: real)
    ensures |group| == |tiedRows|
    ensures forall j :: 0 <= j < |group| ==> group[j] == WeightedRow(tiedRows[j], weight)
    ensures totalWeight == totalBefore + Sum(Weights(group))
  {
    group, totalWeight := [], totalBefore;
    for j := 0 to |tiedRows|
      invariant |group| == j
      invariant forall i :: 0 <= i < j ==> group[i] == WeightedRow(tiedRows[i], weight)
      invariant totalWeight == totalBefore + Sum(Weights(group))
    {
      WeightsGrow(group, WeightedRow(tiedRows[j], weight));
      group := group + [WeightedRow(tiedRows[j], weight)];
      totalWeight := totalWeight + weight;
    }
  }

  lemma {:induction false} WeightsGrow(weighted: seq<WeightedRow>, next: WeightedRow)
    ensures Sum(Weights(weighted + [next])) == Sum(Weights(weighted)) + next.weight
  {
    assert Weights(weighted + [next])[..|weighted|] == Weights(weighted);
  }

  lemma {:induction false} WeightsConcat(a: seq<WeightedRow>, b: seq<WeightedRow>)
    ensures Sum(Weights(a + b)) == Sum(Weights(a)) + Sum(Weights(b))
  {
    if b == [] {
      assert a + b == a;
    } else {
      var init, last := b[..|b| - 1], b[|b| - 1];
      WeightsConcat(a, init);
      assert a + b == (a + init) + [last] && b == init + [last];
      WeightsGrow(a + init, last);
      WeightsGrow(init, last);
    }
  }

  method WeighGroups(d: seq<Item>, rows: seq<PrizeRow>, percentages: map<int, int>,
                     keys: seq<int>, groups: map<int, seq<PrizeRow>>)
    returns (weightedRows: seq<WeightedRow>, totalWeight: real)
    requires forall p :: (if p in percentages then percentages[p] else 0) == Percentage(d, p)
    requires IsGrouping(keys, groups, rows)
    ensures weightedRows == Weighted(d, rows)
    ensures totalWeight == Sum(Weights(weightedRows))
  {
    weightedRows, totalWeight := [], 0.0;
    for k := 0 to |keys|
      invariant weightedRows == WeightedOver(d, rows, keys[..k])
      invariant totalWeight == Sum(Weights(weightedRows))
    {
      KeysHaveGroups(keys, groups, rows, k);
      var tiedRows := groups[keys[k]];
      var groupPercentage := GroupTotal(percentages, keys[k], |tiedRows|, d);
      WeightedOverGrows(d, rows, keys, k);
      if groupPercentage != 0 {
        var group;
        group, totalWeight := WeighGroup(tiedRows, Part(groupPercentage, |tiedRows|), totalWeight);
        GroupRowsBuilt(d, rows, keys[k], group);
        WeightsConcat(weightedRows, group);
        weightedRows := weightedRows + group;
      }
    }
    assert keys[..|keys|] == keys;
  }

  lemma {:induction false} WeightedOverGrows(d: seq<Item>, rows: seq<PrizeRow>, positions: seq<int>, k: nat)
    requires k < |positions|
    ensures WeightedOver(d, rows, positions[..k + 1])
      == WeightedOver(d, rows, positions[..k]) + GroupRows(d, rows, positions[k])
    ensures GroupPercentage(d, rows, positions[k]) == 0 ==>
      WeightedOver(d, rows, positions[..k + 1]) == WeightedOver(d, rows, positions[..k])
  {
    assert positions[..k + 1][..k] == positions[..k];
  }

  lemma {:induction false} GroupRowsBuilt(d: seq<Item>, rows: seq<PrizeRow>, position: int, group: seq<WeightedRow>)
    requires GroupPercentage(d, rows, position) != 0 && |group| == |Tied(rows, position)|
    requires forall j :: 0 <= j < |group| ==>
      group[j] == WeightedRow(Tied(rows, position)[j], GroupWeight(d, rows, position))
    ensures group == GroupRows(d, rows, position)
  {}

  method CalculatePayouts(prizePool: int, d: seq<Item>, rows: seq<PrizeRow>) returns (payouts: seq<Payout>)
    ensures payouts == Payouts(prizePool, d, rows)
  {
    if prizePool <= 0 || |rows| == 0 {
      return [];
    }
    var percentages := ReadPercentages(d);
    var keys, groups := GroupByPosition(rows);
    var weightedRows, totalWeight := WeighGroups(d, rows, percentages, keys, groups);
    if |weightedRows| == 0 || totalWeight == 0.0 {
      return [];
    }
    var shares := Apportion(prizePool, Weights(weightedRows), totalWeight);
    var amounts := shares[..];
    payouts := seq(|weightedRows|, i requires 0 <= i < |weightedRows| == |amounts| =>
      Payout(weightedRows[i].row.userId, weightedRows[i].row.position, amounts[i]));
  }
}
