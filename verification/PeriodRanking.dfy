/** The ranking of a period, folded from the score history in one pass. */
module PeriodRanking {
  import opened Collections
  import opened JsArray
  import opened Tiebreak
  import opened Domain
  import opened Book
  import opened BookRun
  import opened Window

  /** A row of the period. */
  datatype PeriodRow = PeriodRow(
    userId: UserId,
    userName: string,
    scoreTotal: int,
    scoreRound: int,
    hits: Hits,
    userCreatedAt: Time,
    isPro: bool)

  datatype Scope = GENERAL | PRO

  /** `status: 'SCORED', closeAt: { gte: start, lt: end }`, without the excluded round. */
  function InPeriod(b: Book, start: Time, end: Time, excluded: Option<RoundNo>): set<RoundNo> {
    set n | n in b.rounds && b.rounds[n].status == SCORED && b.rounds[n].closeAt.Some?
      && start <= b.rounds[n].closeAt.value < end && excluded != Some(n)
  }

  function BeforePeriod(b: Book, start: Time): set<RoundNo> {
    set n | n in b.rounds && b.rounds[n].status == SCORED && b.rounds[n].closeAt.Some?
      && b.rounds[n].closeAt.value < start
  }

  // ---- the query ----

  function Rows(h: seq<History>, within: set<RoundNo>): (rows: seq<History>)
    ensures forall row :: row in rows <==> row in h && row.round in within
  {
    if h == [] then []
    else
      var before, last := Rows(h[..|h| - 1], within), h[|h| - 1];
      assert h == h[..|h| - 1] + [last];
      if last.round in within then before + [last] else before
  }

  function LaterFirst(a: History, b: History): int {
    b.round - a.round
  }

  /** `orderBy: [{ round: { number: 'desc' } }, { createdAt: 'desc' }]` */
  function Query(h: seq<History>, within: set<RoundNo>): seq<History> {
    Sort(Reversed(Rows(h, within)), LaterFirst)
  }

  function Reversed(rows: seq<History>): (reversed: seq<History>)
    ensures multiset(reversed) == multiset(rows)
  {
    if rows == [] then []
    else
      assert rows == rows[..|rows| - 1] + [rows[|rows| - 1]];
      [rows[|rows| - 1]] + Reversed(rows[..|rows| - 1])
  }

  // ---- the fold, as two figures per user ----

  function FirstOf(rows: seq<History>, u: UserId): (first: Option<History>)
    ensures first.Some? ==> first.value in rows && first.value.userId == u
    ensures first.None? ==> forall row :: row in rows ==> row.userId != u
  {
    if rows == [] then None
    else
      var before, last := FirstOf(rows[..|rows| - 1], u), rows[|rows| - 1];
      assert rows == rows[..|rows| - 1] + [last];
      if before.None? && last.userId == u then Some(last) else before
  }

  function SumOf(rows: seq<History>, u: UserId): int {
    if rows == [] then 0
    else
      var last := rows[|rows| - 1];
      SumOf(rows[..|rows| - 1], u) + if last.userId == u then last.earned.score else 0
  }

  /** The users of the rows, in the order in which they first occur. */
  function Users(rows: seq<History>, keep: set<UserId>, all: bool): (users: seq<UserId>)
    ensures Distinct(users)
    ensures forall u :: u in users <==> (all || u in keep) && exists row :: row in rows && row.userId == u
  {
    if rows == [] then []
    else
      var before, last := Users(rows[..|rows| - 1], keep, all), rows[|rows| - 1];
      assert rows == rows[..|rows| - 1] + [last];
      if last.userId in before || !(all || last.userId in keep) then before else before + [last.userId]
  }

  function RowOf(b: Book, rows: seq<History>, baselines: seq<History>, u: UserId, pro: set<UserId>): PeriodRow {
    var first := FirstOf(rows, u);
    PeriodRow(u, UserOf(b, u).name, SumOf(rows, u), if first.Some? then first.value.earned.score else 0,
              CalculateWindowHits(HitsOf(first), HitsOf(FirstOf(baselines, u))), UserOf(b, u).createdAt, u in pro)
  }

  function RowsOf(b: Book, rows: seq<History>, baselines: seq<History>, users: seq<UserId>,
                  pro: set<UserId>): (period: seq<PeriodRow>)
    ensures |period| == |users|
  {
    seq(|users|, i requires 0 <= i < |users| => RowOf(b, rows, baselines, users[i], pro))
  }

  function PeriodMetrics(row: PeriodRow): Metrics {
    Metrics(row.userId, row.scoreTotal, row.hits.superDoubleHits, row.hits.doubleHits, row.userCreatedAt)
  }

  /** Specification of the period ranking. */
  function PeriodRows(b: Book, start: Time, end: Time, scope: Scope, excluded: Option<RoundNo>,
                      pro: set<UserId>): seq<PeriodRow> {
    var rows := Query(b.history, InPeriod(b, start, end, excluded));
    RowsOf(b, rows, Query(b.history, BeforePeriod(b, start)), Users(rows, pro, scope == GENERAL), pro)
  }

  // ---- the service's loops ----

  /** The first row of every user: `if (!baselineByUser.has(...)) baselineByUser.set(...)`. */
  method FillBaselines(rows: seq<History>) returns (byUser: map<UserId, History>)
    ensures forall u :: (if u in byUser then Some(byUser[u]) else None) == FirstOf(rows, u)
  {
    byUser := map[];
    for k := 0 to |rows|
      invariant forall u :: (if u in byUser then Some(byUser[u]) else None) == FirstOf(rows[..k], u)
    {
      assert rows[..k + 1][..k] == rows[..k];
      if rows[k].userId !in byUser {
        byUser := byUser[rows[k].userId := rows[k]];
      }
    }
    assert rows[..|rows|] == rows;
  }

  /** The JavaScript `Map` by user: its keys in insertion order, and a row for each. */
  ghost predicate Folded(b: Book, rows: seq<History>, baselines: seq<History>, pro: set<UserId>, all: bool,
                         keys: seq<UserId>, byUser: map<UserId, PeriodRow>) {
    && keys == Users(rows, pro, all)
    && (forall u :: u in keys <==> u in byUser)
    && (forall u :: u in byUser ==> byUser[u] == RowOf(b, rows, baselines, u, pro))
  }

  lemma {:induction false} FoldSkips(b: Book, rows: seq<History>, baselines: seq<History>, pro: set<UserId>, all: bool,
                                     keys: seq<UserId>, byUser: map<UserId, PeriodRow>, row: History)
    requires Folded(b, rows, baselines, pro, all, keys, byUser) && !(all || row.userId in pro)
    ensures Folded(b, rows + [row], baselines, pro, all, keys, byUser)
  {
    assert (rows + [row])[..|rows|] == rows;
  }

  lemma {:induction false} NobodyBefore(rows: seq<History>, u: UserId)
    requires forall row :: row in rows ==> row.userId != u
    ensures SumOf(rows, u) == 0 && FirstOf(rows, u).None?
  {
    if rows != [] {
      NobodyBefore(rows[..|rows| - 1], u);
    }
  }

  lemma {:induction false} RowGrows(b: Book, rows: seq<History>, baselines: seq<History>, u: UserId, pro: set<UserId>,
                                    row: History)
    ensures row.userId != u ==> RowOf(b, rows + [row], baselines, u, pro) == RowOf(b, rows, baselines, u, pro)
    ensures row.userId == u && FirstOf(rows, u).Some? ==>
      RowOf(b, rows + [row], baselines, u, pro)
        == RowOf(b, rows, baselines, u, pro).(scoreTotal := SumOf(rows, u) + row.earned.score)
    ensures row.userId == u && FirstOf(rows, u).None? ==>
      RowOf(b, rows + [row], baselines, u, pro)
        == PeriodRow(u, UserOf(b, u).name, row.earned.score, row.earned.score,
                     CalculateWindowHits(HitsOf(Some(row)), HitsOf(FirstOf(baselines, u))), UserOf(b, u).createdAt,
                       u in pro)
  {
    assert (rows + [row])[..|rows|] == rows;
    if FirstOf(rows, u).None? {
      NobodyBefore(rows, u);
    }
  }

  lemma {:induction false} FoldGrows(b: Book, rows: seq<History>, baselines: seq<History>, pro: set<UserId>, all: bool,
                                     keys: seq<UserId>, byUser: map<UserId, PeriodRow>, row: History)
    requires Folded(b, rows, baselines, pro, all, keys, byUser) && (all || row.userId in pro)
    ensures row.userId in byUser <==> FirstOf(rows, row.userId).Some?
    ensures Folded(b, rows + [row], baselines, pro, all,
      if row.userId in byUser then keys else keys + [row.userId],
      byUser[row.userId := RowOf(b, rows + [row], baselines, row.userId, pro)])
  {}

  /** One row of the history that counts. */
  method Add(b: Book, item: History, pro: set<UserId>, baselineByUser: map<UserId, History>, keys: seq<UserId>,
             byUser: map<UserId, PeriodRow>, ghost rows: seq<History>, ghost baselines: seq<History>, ghost all: bool)
    returns (newKeys: seq<UserId>, newByUser: map<UserId, PeriodRow>)
    requires forall u :: (if u in baselineByUser then Some(baselineByUser[u]) else None) == FirstOf(baselines, u)
    requires Folded(b, rows, baselines, pro, all, keys, byUser) && (all || item.userId in pro)
    ensures Folded(b, rows + [item], baselines, pro, all, newKeys, newByUser)
  {
    var u := item.userId;
    FoldGrows(b, rows, baselines, pro, all, keys, byUser, item);
    RowGrows(b, rows, baselines, u, pro, item);
    if u !in byUser {
      var baseline := if u in baselineByUser then Some(baselineByUser[u]) else None;
      var hits := CalculateWindowHits(HitsOf(Some(item)), HitsOf(baseline));
      newKeys := keys + [u];
      newByUser := byUser[u :=
        PeriodRow(u, UserOf(b, u).name, item.earned.score, item.earned.score, hits, UserOf(b, u).createdAt, u in pro)];
    } else {
      newKeys := keys;
      newByUser := byUser[u := byUser[u].(scoreTotal := byUser[u].scoreTotal + item.earned.score)];
    }
  }

  lemma {:induction false} FoldedRows(b: Book, rows: seq<History>, baselines: seq<History>, pro: set<UserId>, all: bool,
                                      keys: seq<UserId>, byUser: map<UserId, PeriodRow>, period: seq<PeriodRow>)
    requires Folded(b, rows, baselines, pro, all, keys, byUser) && |period| == |keys|
    requires forall i :: 0 <= i < |keys| ==> keys[i] in byUser && period[i] == byUser[keys[i]]
    ensures period == RowsOf(b, rows, baselines, Users(rows, pro, all), pro)
  {}

  method Fold(b: Book, rows: seq<History>, baselineByUser: map<UserId, History>, ghost baselines: seq<History>,
              scope: Scope, pro: set<UserId>)
    returns (period: seq<PeriodRow>)
    requires forall u :: (if u in baselineByUser then Some(baselineByUser[u]) else None) == FirstOf(baselines, u)
    ensures period == RowsOf(b, rows, baselines, Users(rows, pro, scope == GENERAL), pro)
  {
    var keys: seq<UserId>, byUser: map<UserId, PeriodRow> := [], map[];
    for k := 0 to |rows|
      invariant Folded(b, rows[..k], baselines, pro, scope == GENERAL, keys, byUser)
    {
      TakeNext(rows, k);
      if scope == PRO && rows[k].userId !in pro {
        FoldSkips(b, rows[..k], baselines, pro, false, keys, byUser, rows[k]);
        continue;
      }
      keys, byUser := Add(b, rows[k], pro, baselineByUser, keys, byUser, rows[..k], baselines, scope == GENERAL);
    }
    assert rows[..|rows|] == rows;
    assert forall i :: 0 <= i < |keys| ==> keys[i] in keys;
    period := seq(|keys|, i requires 0 <= i < |keys| && keys[i] in byUser => byUser[keys[i]]);
    FoldedRows(b, rows, baselines, pro, scope == GENERAL, keys, byUser, period);
  }

  method BuildPeriodRanking(b: Book, start: Time, end: Time, scope: Scope, excluded: Option<RoundNo>, pro: set<UserId>)
    returns (ranking: seq<Ranked<PeriodRow>>)
    ensures ranking == Ranking(PeriodRows(b, start, end, scope, excluded, pro), PeriodMetrics)
  {
    var history := Query(b.history, InPeriod(b, start, end, excluded));
    ghost var baselines := Query(b.history, BeforePeriod(b, start));
    var baselineByUser := FillBaselines(Query(b.history, BeforePeriod(b, start)));
    var rows := Fold(b, history, baselineByUser, baselines, scope, pro);
    ranking := Rank(rows, PeriodMetrics);
  }

  // ---- what the fold promises ----

  lemma {:induction false} SumOfLast(rows: seq<History>, row: History, u: UserId)
    ensures SumOf(rows + [row], u) == SumOf(rows, u) + if row.userId == u then row.earned.score else 0
  {}

  lemma {:induction false} SumOfConcat(a: seq<History>, b: seq<History>, u: UserId)
    ensures SumOf(a + b, u) == SumOf(a, u) + SumOf(b, u)
  {
    if b == [] {
      assert a + b == a;
    } else {
      var init, last := b[..|b| - 1], b[|b| - 1];
      SumOfConcat(a, init, u);
      SumOfLast(a + init, last, u);
      assert a + b == a + init + [last];
    }
  }

  lemma {:induction false} SumOfWithout(rows: seq<History>, k: nat, u: UserId)
    requires k < |rows|
    ensures SumOf(rows, u)
      == SumOf(rows[..k] + rows[k + 1..], u) + if rows[k].userId == u then rows[k].earned.score else 0
  {
    SumOfConcat(rows[..k], [rows[k]] + rows[k + 1..], u);
    SumOfConcat([rows[k]], rows[k + 1..], u);
    SumOfConcat(rows[..k], rows[k + 1..], u);
    assert rows == rows[..k] + ([rows[k]] + rows[k + 1..]);
    assert SumOf([rows[k]], u) == if rows[k].userId == u then rows[k].earned.score else 0 by {
      SumOfLast([], rows[k], u);
      assert [] + [rows[k]] == [rows[k]];
    }
  }

  /** The sum does not depend on the order of the rows. */
  lemma {:induction false} SumOfPermuted(a: seq<History>, b: seq<History>, u: UserId)
    requires multiset(a) == multiset(b)
    ensures SumOf(a, u) == SumOf(b, u)
    decreases |a|
  {
    if a == [] {
      assert |b| == |multiset(b)| == 0;
    } else {
      var k := FindFirstElsewhere(a, b);
      SumOfWithout(b, k, u);
      SumOfWithout(a, 0, u);
      assert a[..0] + a[1..] == a[1..];
      SumOfPermuted(a[1..], b[..k] + b[k + 1..], u);
    }
  }

  lemma {:induction false} SumOfRows(h: seq<History>, within: set<RoundNo>, u: UserId)
    ensures SumOf(Rows(h, within), u) == Earned(h, u, within, Score)
  {
    if h != [] {
      SumOfRows(h[..|h| - 1], within, u);
      SumOfLast(Rows(h[..|h| - 1], within), h[|h| - 1], u);
    }
  }

  /** `@@unique([userId, roundId])` */
  ghost predicate UniqueRows(h: seq<History>) {
    forall a, b :: a in h && b in h && a.userId == b.userId && a.round == b.round ==> a == b
  }

  lemma {:induction false} LaterFirstIsTotal()
    ensures TotalPreorder(LaterFirst)
  {}

  lemma {:induction false} QueryElements(h: seq<History>, within: set<RoundNo>, row: History)
    ensures row in Query(h, within) <==> row in h && row.round in within
  {
    assert row in Query(h, within) <==> row in multiset(Query(h, within));
    assert row in multiset(Rows(h, within)) <==> row in Rows(h, within);
  }

  lemma {:induction false} FirstIsFirst(rows: seq<History>, u: UserId, row: History)
    requires Ordered(rows, LaterFirst) && row in rows && row.userId == u
    ensures FirstOf(rows, u).Some? && FirstOf(rows, u).value.round >= row.round
  {
    var init, last := rows[..|rows| - 1], rows[|rows| - 1];
    assert rows == init + [last];
    if row in init {
      FirstIsFirst(init, u, row);
    } else if FirstOf(init, u).Some? {
      var i :| 0 <= i < |init| && init[i] == FirstOf(init, u).value;
      assert LaterFirst(rows[i], rows[|rows| - 1]) <= 0;
    }
  }

  lemma {:induction false} LatestIsLatest(h: seq<History>, u: UserId, within: set<RoundNo>, row: History)
    requires row in h && row.userId == u && row.round in within
    ensures Latest(h, u, within, BY_NUMBER).Some? && Latest(h, u, within, BY_NUMBER).value.round >= row.round
  {
    var init, last := h[..|h| - 1], h[|h| - 1];
    assert h == init + [last];
    if row in init {
      LatestIsLatest(init, u, within, row);
    }
  }

  /** The first row of a user in the query is the latest one. */
  lemma {:induction false} FirstIsLatest(h: seq<History>, within: set<RoundNo>, u: UserId)
    requires UniqueRows(h)
    ensures FirstOf(Query(h, within), u) == Latest(h, u, within, BY_NUMBER)
  {
    var first, latest := FirstOf(Query(h, within), u), Latest(h, u, within, BY_NUMBER);
    LaterFirstIsTotal();
    SortOrders(Reversed(Rows(h, within)), LaterFirst);
    LatestIsARow(h, u, within, BY_NUMBER);
    if first.Some? {
      QueryElements(h, within, first.value);
      LatestIsLatest(h, u, within, first.value);
    }
    if latest.Some? {
      QueryElements(h, within, latest.value);
      FirstIsFirst(Query(h, within), u, latest.value);
    }
  }

  lemma {:induction false} RunningIsUnique(h: seq<History>)
    requires Running(h)
    ensures UniqueRows(h)
  {
    if h != [] {
      RunningIsUnique(h[..|h| - 1]);
      assert h == h[..|h| - 1] + [h[|h| - 1]];
    }
  }

  lemma {:induction false} PeriodIsClosed(b: Book, start: Time, end: Time)
    requires HistoryOk(b) && ClosingsOk(b)
    ensures DownwardClosed(b.history, BeforePeriod(b, start))
    ensures start <= end ==> DownwardClosed(b.history, BeforePeriod(b, start) + InPeriod(b, start, end, None))
  {}

  lemma {:induction false} EmptyPeriod(b: Book, start: Time, end: Time)
    requires start > end
    ensures InPeriod(b, start, end, None) == {}
  {}

  lemma {:induction false} HitsOfPeriod(b: Book, start: Time, end: Time, u: UserId, f: Figure)
    requires HistoryOk(b) && ClosingsOk(b)
    requires Latest(b.history, u, InPeriod(b, start, end, None), BY_NUMBER).Some?
    ensures TotalOf(Latest(b.history, u, InPeriod(b, start, end, None), BY_NUMBER), f)
      - TotalOf(Latest(b.history, u, BeforePeriod(b, start), BY_NUMBER), f)
      == Earned(b.history, u, InPeriod(b, start, end, None), f)
  {
    if start > end {
      EmptyPeriod(b, start, end);
      LatestInNothing(b.history, u, BY_NUMBER, f);
    } else {
      PeriodIsClosed(b, start, end);
      WindowIsTheSum(b.history, u, BeforePeriod(b, start), InPeriod(b, start, end, None), f);
    }
  }

  lemma {:induction false} PeriodScore(h: seq<History>, within: set<RoundNo>, u: UserId)
    ensures SumOf(Query(h, within), u) == Earned(h, u, within, Score)
  {
    SumOfPermuted(Query(h, within), Rows(h, within), u);
    SumOfRows(h, within, u);
  }

  lemma {:induction false} WindowHits(latest: Option<History>, baseline: Option<History>)
    ensures CalculateWindowHits(HitsOf(latest), HitsOf(baseline))
      == Hits(TotalOf(latest, SuperDoubles) - TotalOf(baseline, SuperDoubles),
              TotalOf(latest, Doubles) - TotalOf(baseline, Doubles))
  {}

  lemma {:induction false} PeriodHits(b: Book, start: Time, end: Time, u: UserId)
    requires HistoryOk(b) && ClosingsOk(b) && FirstOf(Query(b.history, InPeriod(b, start, end, None)), u).Some?
    ensures var within := InPeriod(b, start, end, None);
      CalculateWindowHits(HitsOf(FirstOf(Query(b.history, within), u)),
        HitsOf(FirstOf(Query(b.history, BeforePeriod(b, start)), u)))
        == Hits(Earned(b.history, u, within, SuperDoubles), Earned(b.history, u, within, Doubles))
  {
    var within, before := InPeriod(b, start, end, None), BeforePeriod(b, start);
    RunningIsUnique(b.history);
    FirstIsLatest(b.history, within, u);
    FirstIsLatest(b.history, before, u);
    HitsOfPeriod(b, start, end, u, SuperDoubles);
    HitsOfPeriod(b, start, end, u, Doubles);
    WindowHits(Latest(b.history, u, within, BY_NUMBER), Latest(b.history, u, before, BY_NUMBER));
  }

  // ---- in the rounds and rows of the history ----

  /** The scored rounds that close in the period, but for the excluded one. */
  ghost predicate AreOfPeriod(b: Book, start: Time, end: Time, excluded: Option<RoundNo>, rounds: set<RoundNo>) {
    forall n :: n in rounds
      <==> (&& n in b.rounds && b.rounds[n].status == SCORED && b.rounds[n].closeAt.Some?
            && start <= b.rounds[n].closeAt.value < end && excluded != Some(n))
  }

  lemma {:induction false} PeriodExactly(b: Book, start: Time, end: Time, excluded: Option<RoundNo>,
                                         rounds: set<RoundNo>)
    requires AreOfPeriod(b, start, end, excluded, rounds)
    ensures rounds == InPeriod(b, start, end, excluded)
  {
    forall n: RoundNo | true ensures n in rounds <==> n in InPeriod(b, start, end, excluded) {}
  }

  /** Everything scored since the start up to the user's last round of the period. */
  ghost predicate AreSince(b: Book, start: Time, last: RoundNo, rounds: set<RoundNo>) {
    forall n :: n in rounds
      <==> (&& n in b.rounds && b.rounds[n].status == SCORED && b.rounds[n].closeAt.Some?
            && start <= b.rounds[n].closeAt.value && n <= last)
  }

  lemma {:induction false} LatestOfBoth(h: seq<History>, u: UserId, within: set<RoundNo>, others: set<RoundNo>)
    requires UniqueRows(h) && Latest(h, u, within, BY_NUMBER).Some?
    requires Latest(h, u, within, BY_NUMBER).value.round in others
    requires forall n :: n in others ==> n <= Latest(h, u, within, BY_NUMBER).value.round
    ensures Latest(h, u, others, BY_NUMBER) == Latest(h, u, within, BY_NUMBER)
  {
    LatestIsARow(h, u, within, BY_NUMBER);
    LatestIsLatest(h, u, others, Latest(h, u, within, BY_NUMBER).value);
    LatestIsARow(h, u, others, BY_NUMBER);
  }

  lemma {:induction false} SinceIsClosed(b: Book, start: Time, last: RoundNo, since: set<RoundNo>)
    requires HistoryOk(b) && ClosingsOk(b) && AreSince(b, start, last, since)
    ensures BeforePeriod(b, start) !! since
    ensures DownwardClosed(b.history, BeforePeriod(b, start) + since)
  {
    forall n | n in BeforePeriod(b, start) ensures n !in since {}
  }

  lemma {:induction false} HitsSince(b: Book, start: Time, u: UserId, within: set<RoundNo>, since: set<RoundNo>,
                                     f: Figure)
    requires HistoryOk(b) && ClosingsOk(b) && Latest(b.history, u, within, BY_NUMBER).Some?
    requires AreSince(b, start, Latest(b.history, u, within, BY_NUMBER).value.round, since)
    requires Latest(b.history, u, within, BY_NUMBER).value.round in since
    ensures TotalOf(Latest(b.history, u, within, BY_NUMBER), f)
      - TotalOf(Latest(b.history, u, BeforePeriod(b, start), BY_NUMBER), f) == Earned(b.history, u, since, f)
  {
    RunningIsUnique(b.history);
    LatestOfBoth(b.history, u, within, since);
    SinceIsClosed(b, start, Latest(b.history, u, within, BY_NUMBER).value.round, since);
    PeriodIsClosed(b, start, start);
    WindowIsTheSum(b.history, u, BeforePeriod(b, start), since, f);
  }

  function RowFor(b: Book, start: Time, end: Time, excluded: Option<RoundNo>, u: UserId, pro: set<UserId>): PeriodRow {
    RowOf(b, Query(b.history, InPeriod(b, start, end, excluded)), Query(b.history, BeforePeriod(b, start)), u, pro)
  }

  lemma {:induction false} RowsAreFor(b: Book, start: Time, end: Time, scope: Scope, excluded: Option<RoundNo>,
                                      pro: set<UserId>, row: PeriodRow)
    requires row in PeriodRows(b, start, end, scope, excluded, pro)
    ensures row == RowFor(b, start, end, excluded, row.userId, pro)
  {}

  lemma {:induction false} RowForIsTheSum(b: Book, start: Time, end: Time, excluded: Option<RoundNo>, u: UserId,
                                          pro: set<UserId>, rounds: set<RoundNo>, last: History, since: set<RoundNo>)
    requires HistoryOk(b) && ClosingsOk(b) && AreOfPeriod(b, start, end, excluded, rounds)
    requires last in b.history && last.userId == u && last.round in rounds
    requires forall row :: row in b.history && row.userId == u && row.round in rounds ==> row.round <= last.round
    requires AreSince(b, start, last.round, since)
    ensures var row := RowFor(b, start, end, excluded, u, pro);
      && row.scoreTotal == Earned(b.history, u, rounds, Score) && row.scoreRound == last.earned.score
      && row.hits == Hits(Earned(b.history, u, since, SuperDoubles), Earned(b.history, u, since, Doubles))
      && (excluded.None? ==>
        row.hits == Hits(Earned(b.history, u, rounds, SuperDoubles), Earned(b.history, u, rounds, Doubles)))
      && (u in b.users ==> row.userName == b.users[u].name && row.userCreatedAt == b.users[u].createdAt)
      && (row.isPro <==> u in pro)
  {
    PeriodExactly(b, start, end, excluded, rounds);
    PeriodScore(b.history, rounds, u);
    LastIsFirst(b, start, u, rounds, last);
    HitsAre(b, start, u, rounds, last, since);
    if excluded.None? {
      PeriodHits(b, start, end, u);
    }
  }

  /** A row of the period: the score is the plain sum over the rounds of the period; the hits are the
      sums over everything scored since the start up to the user's last round of the period -- which
      is the period itself when nothing is excluded. */
  lemma {:induction false} PeriodRowIsTheSum(b: Book, start: Time, end: Time, scope: Scope, excluded: Option<RoundNo>,
                                             pro: set<UserId>, row: PeriodRow, rounds: set<RoundNo>, last: History,
                                             since: set<RoundNo>)
    requires HistoryOk(b) && ClosingsOk(b) && row in PeriodRows(b, start, end, scope, excluded, pro)
    requires AreOfPeriod(b, start, end, excluded, rounds) && AreSince(b, start, last.round, since)
    requires last in b.history && last.userId == row.userId && last.round in rounds
    requires forall r :: r in b.history && r.userId == row.userId && r.round in rounds ==> r.round <= last.round
    ensures row.scoreTotal == Earned(b.history, row.userId, rounds, Score) && row.scoreRound == last.earned.score
    ensures row.hits.superDoubleHits == Earned(b.history, row.userId, since, SuperDoubles)
    ensures row.hits.doubleHits == Earned(b.history, row.userId, since, Doubles)
    ensures excluded.None? ==>
      && row.hits.superDoubleHits == Earned(b.history, row.userId, rounds, SuperDoubles)
      && row.hits.doubleHits == Earned(b.history, row.userId, rounds, Doubles)
    ensures row.userId in b.users ==>
      row.userName == b.users[row.userId].name && row.userCreatedAt == b.users[row.userId].createdAt
    ensures row.isPro <==> row.userId in pro
  {
    RowsAreFor(b, start, end, scope, excluded, pro, row);
    RowForIsTheSum(b, start, end, excluded, row.userId, pro, rounds, last, since);
  }

  lemma {:induction false} LastIsFirst(b: Book, start: Time, u: UserId, rounds: set<RoundNo>, last: History)
    requires HistoryOk(b) && last in b.history && last.userId == u && last.round in rounds
    requires forall row :: row in b.history && row.userId == u && row.round in rounds ==> row.round <= last.round
    ensures FirstOf(Query(b.history, rounds), u) == Latest(b.history, u, rounds, BY_NUMBER) == Some(last)
  {
    RunningIsUnique(b.history);
    FirstIsLatest(b.history, rounds, u);
    LatestIsARow(b.history, u, rounds, BY_NUMBER);
    LatestIsLatest(b.history, u, rounds, last);
  }

  lemma {:induction false} HitsAre(b: Book, start: Time, u: UserId, rounds: set<RoundNo>, last: History,
                                   since: set<RoundNo>)
    requires HistoryOk(b) && ClosingsOk(b) && Latest(b.history, u, rounds, BY_NUMBER) == Some(last)
    requires AreSince(b, start, last.round, since) && last.round in since
    ensures CalculateWindowHits(HitsOf(Some(last)), HitsOf(FirstOf(Query(b.history, BeforePeriod(b, start)), u)))
      == Hits(Earned(b.history, u, since, SuperDoubles), Earned(b.history, u, since, Doubles))
  {
    RunningIsUnique(b.history);
    FirstIsLatest(b.history, BeforePeriod(b, start), u);
    HitsSince(b, start, u, rounds, since, SuperDoubles);
    HitsSince(b, start, u, rounds, since, Doubles);
    WindowHits(Some(last), Latest(b.history, u, BeforePeriod(b, start), BY_NUMBER));
  }

  lemma {:induction false} RowsOfUsers(b: Book, rows: seq<History>, baselines: seq<History>, users: seq<UserId>,
                                       pro: set<UserId>, u: UserId)
    requires Distinct(users)
    ensures var period := RowsOf(b, rows, baselines, users, pro);
      && ((exists row :: row in period && row.userId == u) <==> u in users)
      && forall i, j :: 0 <= i < j < |period| ==> period[i].userId != period[j].userId
  {
    var period := RowsOf(b, rows, baselines, users, pro);
    assert forall i :: 0 <= i < |users| ==> period[i].userId == users[i];
    if u in users {
      var i :| 0 <= i < |users| && users[i] == u;
      assert period[i] in period;
    }
  }

  /** The users of the period are those with a row in it that the scope admits, each once. */
  lemma {:induction false} PeriodUsersExactly(b: Book, start: Time, end: Time, scope: Scope, excluded: Option<RoundNo>,
                                              pro: set<UserId>, u: UserId, rounds: set<RoundNo>)
    requires AreOfPeriod(b, start, end, excluded, rounds)
    ensures (exists row :: row in PeriodRows(b, start, end, scope, excluded, pro) && row.userId == u)
      <==> (&& (scope == GENERAL || u in pro)
            && exists row :: row in b.history && row.userId == u && row.round in rounds)
    ensures forall i, j :: 0 <= i < j < |PeriodRows(b, start, end, scope, excluded, pro)| ==>
      PeriodRows(b, start, end, scope, excluded, pro)[i].userId
        != PeriodRows(b, start, end, scope, excluded, pro)[j].userId
  {
    PeriodExactly(b, start, end, excluded, rounds);
    var rows := Query(b.history, rounds);
    forall row | true ensures row in rows <==> row in b.history && row.round in rounds {
      QueryElements(b.history, rounds, row);
    }
    RowsOfUsers(b, rows, Query(b.history, BeforePeriod(b, start)), Users(rows, pro, scope == GENERAL), pro, u);
  }

  // ---- the ranking ----

  /** Officially ahead in the period: score, then super doubles, then doubles, then the older account. */
  predicate AheadInPeriod(a: PeriodRow, b: PeriodRow) {
    || a.scoreTotal > b.scoreTotal
    || (a.scoreTotal == b.scoreTotal && a.hits.superDoubleHits > b.hits.superDoubleHits)
    || (a.scoreTotal == b.scoreTotal && a.hits.superDoubleHits == b.hits.superDoubleHits
        && a.hits.doubleHits > b.hits.doubleHits)
    || (a.scoreTotal == b.scoreTotal && a.hits == b.hits && a.userCreatedAt < b.userCreatedAt)
  }

  /** The ranking lists the rows of the period, each at one plus the number of rows ahead of it. */
  lemma {:induction false} PeriodPlaces(rows: seq<PeriodRow>, k: nat)
    requires k < |rows|
    ensures multiset(Tiebreak.Rows(Ranking(rows, PeriodMetrics))) == multiset(rows)
    ensures var ranked := Ranking(rows, PeriodMetrics)[k];
      ranked.position == 1 + |set j: nat | j < |rows| && AheadInPeriod(rows[j], ranked.row)|
  {
    RankingPermutes(rows, PeriodMetrics);
    var row := Ranking(rows, PeriodMetrics)[k].row;
    var ahead := set j: nat | j < |rows| && AheadInPeriod(rows[j], row);
    forall j: nat | true ensures j in ahead <==> j < |rows| && Better(PeriodMetrics(rows[j]), PeriodMetrics(row)) {}
    CountBetterCounts(rows, PeriodMetrics, PeriodMetrics(row), ahead);
  }
}
