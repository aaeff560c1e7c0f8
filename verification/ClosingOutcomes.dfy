/** What a closing comes to, in the terms of the history, the participants and the percentages:
    when it goes through, what it stores, and who is paid what. */
module ClosingOutcomes {
  import opened Collections
  import opened JsArray
  import opened Tiebreak
  import opened Prize
  import opened PrizeLaws
  import opened Payability
  import opened Domain
  import opened MesaRules
  import opened MesaIntegrity
  import opened Book
  import opened BookRun
  import opened Window
  import opened Wallets
  import opened Join
  import opened Lifecycle
  import opened Settlement
  import opened SettlementLaws
  import opened MesaInvariant
  import opened MesaClosing
  import opened Competition
  import opened CompetitionInvariant
  import opened Operations

  // ---- the ranking, by the sums ----

  /** The rows to be ranked are those of the participants, and hold the sums. */
  ghost predicate SumRows(b: Book, ps: seq<Participant>, rounds: set<RoundNo>, rows: seq<Row>) {
    && |rows| == |ps| && DistinctWindowRows(rows)
    && forall i :: 0 <= i < |rows| ==> rows[i].userId == ps[i].userId && RowIsTheSum(b, rows[i], rounds)
  }

  function Prizes(rows: seq<Row>): (prizes: seq<PrizeRow>)
    ensures |prizes| == |rows|
  {
    PrizeRows(Ranking(rows, RowMetrics), RowMetrics)
  }

  lemma {:induction false} PrizeIsOfARow(rows: seq<Row>, k: nat) returns (i: nat)
    requires k < |rows|
    ensures i < |rows| && Ranking(rows, RowMetrics)[k].row == rows[i]
    ensures Prizes(rows)[k] == PrizeRow(rows[i].userId, 1 + CountBetter(rows, RowMetrics, RowMetrics(rows[i])))
  {
    var sorted := Sort(rows, ByMetrics(RowMetrics));
    assert sorted[k] in multiset(sorted);
    i :| 0 <= i < |rows| && rows[i] == sorted[k];
  }

  lemma {:induction false} RowHasAPrize(rows: seq<Row>, i: nat) returns (k: nat)
    requires i < |rows|
    ensures k < |rows| && Prizes(rows)[k].userId == rows[i].userId
  {
    var sorted := Sort(rows, ByMetrics(RowMetrics));
    assert multiset(rows) == multiset(sorted) && rows[i] in multiset(rows);
    k :| 0 <= k < |sorted| && sorted[k] == rows[i];
    assert Ranking(rows, RowMetrics)[k].row == rows[i];
    assert Prizes(rows)[k].userId == RowMetrics(rows[i]).userId;
  }

  /** Every listed user is a participant at the place that the sums give. */
  lemma {:induction false} PrizePlace(b: Book, ps: seq<Participant>, rounds: set<RoundNo>, rows: seq<Row>, k: nat)
    requires SumRows(b, ps, rounds, rows) && k < |rows|
    ensures Takes(ps, Prizes(rows)[k].userId)
    ensures Prizes(rows)[k].position == PlaceOver(b.history, b.users, ps, Prizes(rows)[k].userId, rounds)
  {
    var i := PrizeIsOfARow(rows, k);
    PlaceIsCounted(b, rows, ps, i, rounds);
    assert ps[i] in ps;
  }

  lemma {:induction false} EverybodyListed(b: Book, ps: seq<Participant>, rounds: set<RoundNo>, rows: seq<Row>,
                                           u: UserId) returns (k: nat)
    requires SumRows(b, ps, rounds, rows) && Takes(ps, u)
    ensures k < |rows| && Prizes(rows)[k].userId == u
  {
    var i :| 0 <= i < |ps| && ps[i].userId == u;
    k := RowHasAPrize(rows, i);
  }

  lemma {:induction false} ListedOnce(rows: seq<Row>)
    requires DistinctWindowRows(rows)
    ensures DistinctPrizeUsers(Prizes(rows))
  {
    RankedUsersAreDistinct(rows);
    PrizeRowUsers(Ranking(rows, RowMetrics));
  }

  /** By place, and by the order of ids at the same place. */
  predicate Before(a: PrizeRow, b: PrizeRow) {
    a.position < b.position || (a.position == b.position && a.userId < b.userId)
  }

  lemma {:induction false} ListedInOrder(rows: seq<Row>, i: nat, j: nat)
    requires DistinctWindowRows(rows) && i < j < |rows|
    ensures Before(Prizes(rows)[i], Prizes(rows)[j])
  {
    var ranked := Ranking(rows, RowMetrics);
    RankingIsOfficialOrder(rows, RowMetrics, i, j);
    SharedPositionIsOfficialTie(rows, RowMetrics, i, j);
    ListedOnce(rows);
    ByMetricsIsTotal(RowMetrics);
    SortOrders(rows, ByMetrics(RowMetrics));
    assert ByMetrics(RowMetrics)(ranked[i].row, ranked[j].row) <= 0;
  }

  /** The participants at the place. */
  ghost function UsersPlaced(h: seq<History>, users: map<UserId, User>, ps: seq<Participant>, rounds: set<RoundNo>,
                             place: int): set<UserId> {
    set p | p in ps && PlaceOver(h, users, ps, p.userId, rounds) == place :: p.userId
  }

  lemma {:induction false} SameUsersPlaced(b: Book, ps: seq<Participant>, rounds: set<RoundNo>, rows: seq<Row>,
                                           place: int)
    requires SumRows(b, ps, rounds, rows)
    ensures UsersAt(Prizes(rows), place) == UsersPlaced(b.history, b.users, ps, rounds, place)
  {
    var placed := UsersPlaced(b.history, b.users, ps, rounds, place);
    forall u | u in UsersAt(Prizes(rows), place) ensures u in placed {
      var k :| 0 <= k < |rows| && Prizes(rows)[k].userId == u && Prizes(rows)[k].position == place;
      PrizePlace(b, ps, rounds, rows, k);
    }
    forall u | u in placed ensures u in UsersAt(Prizes(rows), place) {
      var k := EverybodyListed(b, ps, rounds, rows, u);
      PrizePlace(b, ps, rounds, rows, k);
      assert Prizes(rows)[k] in Prizes(rows);
    }
  }

  // ---- who is to be paid what ----

  /** Exactly the participants placed up to the number of prizes are paid, by place, and by id at
      the same place. */
  ghost predicate PaysPlaces(h: seq<History>, users: map<UserId, User>, ps: seq<Participant>, rounds: set<RoundNo>,
                             prizes: int, payouts: seq<Payout>) {
    && (forall i :: 0 <= i < |payouts| ==>
      && Takes(ps, payouts[i].userId) && payouts[i].position <= prizes
      && payouts[i].position == PlaceOver(h, users, ps, payouts[i].userId, rounds))
    && (forall u :: Takes(ps, u) && PlaceOver(h, users, ps, u, rounds) <= prizes ==>
      exists i :: 0 <= i < |payouts| && payouts[i].userId == u)
    && (forall i, j :: 0 <= i < j < |payouts| ==>
      Before(PrizeRow(payouts[i].userId, payouts[i].position), PrizeRow(payouts[j].userId, payouts[j].position)))
  }

  /** What somebody at the place is due: an equal part of the percentages of the places that those
      tied with him occupy, of all percentages that are paid. */
  ghost function DueAt(h: seq<History>, users: map<UserId, User>, ps: seq<Participant>, rounds: set<RoundNo>,
                       pool: int, d: seq<Item>, place: int): real
    requires place >= 1 && UsersPlaced(h, users, ps, rounds, place) != {} && Percentages(d[..Smaller(|ps|, |d|)]) > 0
  {
    ExactShare(pool, d, |ps|, place, |UsersPlaced(h, users, ps, rounds, place)|)
  }

  lemma {:induction false} RankingPaysPlaces(b: Book, ps: seq<Participant>, rounds: set<RoundNo>, rows: seq<Row>,
                                             pool: int, d: seq<Item>, payouts: seq<Payout>)
    requires SumRows(b, ps, rounds, rows) && IsDistribution(d) && pool > 0
    requires payouts == Payouts(pool, d, Prizes(rows))
    ensures PaysPlaces(b.history, b.users, ps, rounds, |d|, payouts)
  {
    RankingHasCompetitionPositions(rows, RowMetrics);
    PaysTheFirst(pool, d, Prizes(rows));
    forall i | 0 <= i < |payouts|
      ensures Takes(ps, payouts[i].userId) && payouts[i].position <= |d|
      ensures payouts[i].position == PlaceOver(b.history, b.users, ps, payouts[i].userId, rounds)
    {
      PrizePlace(b, ps, rounds, rows, i);
    }
    forall u | Takes(ps, u) && PlaceOver(b.history, b.users, ps, u, rounds) <= |d|
      ensures exists i :: 0 <= i < |payouts| && payouts[i].userId == u
    {
      var k := EverybodyListed(b, ps, rounds, rows, u);
      PrizePlace(b, ps, rounds, rows, k);
      assert payouts[k].userId == u;
    }
    forall i, j | 0 <= i < j < |payouts|
      ensures Before(PrizeRow(payouts[i].userId, payouts[i].position), PrizeRow(payouts[j].userId, payouts[j].position))
    {
      ListedInOrder(rows, i, j);
    }
  }

  lemma {:induction false} RankingPaysDue(b: Book, ps: seq<Participant>, rounds: set<RoundNo>, rows: seq<Row>,
    pool: int,
                                          d: seq<Item>, payouts: seq<Payout>, i: nat, j: nat) returns (x: real, y: real)
    requires SumRows(b, ps, rounds, rows) && IsDistribution(d) && payouts == Payouts(pool, d, Prizes(rows))
    requires i < |payouts| && j < |payouts| && pool > 0
    ensures var (p, q) := (payouts[i].position, payouts[j].position);
      && p >= 1 && UsersPlaced(b.history, b.users, ps, rounds, p) != {}
      && q >= 1 && UsersPlaced(b.history, b.users, ps, rounds, q) != {}
      && Percentages(d[..Smaller(|ps|, |d|)]) > 0
      && x == DueAt(b.history, b.users, ps, rounds, pool, d, p)
        && y == DueAt(b.history, b.users, ps, rounds, pool, d, q)
    ensures payouts[i].amount == x.Floor || payouts[i].amount == x.Floor + 1
    ensures payouts[i].amount == x.Floor + 1 && payouts[j].amount == y.Floor ==>
      || x - x.Floor as real > y - y.Floor as real
      || (x - x.Floor as real == y - y.Floor as real && i < j)
  {
    RankingHasCompetitionPositions(rows, RowMetrics);
    ListedOnce(rows);
    PaysTheFirst(pool, d, Prizes(rows));
    x, y := RankedPayouts(pool, d, Prizes(rows), payouts, i, j);
    SameUsersPlaced(b, ps, rounds, rows, payouts[i].position);
    SameUsersPlaced(b, ps, rounds, rows, payouts[j].position);
  }

  // ---- a Mesa to be closed ----

  /** What the participants share: what was collected less the fee, and what the sponsor puts in. */
  function PrizeMoney(m: Mesa): int {
    m.counters.grossCollected - m.counters.grossCollected / 10
      + if m.terms.category == SPONSORED_FREE then m.terms.sponsorPrizePool else 0
  }

  /** The Mesa has started, with prizes; `rounds` are those that count, `d` its distribution. */
  ghost predicate PaysOver(b: Book, m: Mesa, end: Option<Time>, now: Time, rounds: set<RoundNo>, d: seq<Item>) {
    && BookOk(b) && MesaOk(b, m) && m.milestones.initializationStatus == Some(READY)
    && m.milestones.referenceRound.Some? && AreCounted(b, m.milestones.referenceRound.value, end.GetOr(now), rounds)
    && m.terms.category != FREE && IsDistribution(d) && m.terms.prizeDistribution == AsJson(d)
  }

  lemma {:induction false} ClosingRowsHoldSums(b: Book, m: Mesa, end: Option<Time>, now: Time, rounds: set<RoundNo>,
                                               rows: seq<Row>)
    requires BookOk(b) && MesaOk(b, m) && m.milestones.initializationStatus == Some(READY)
    requires m.milestones.referenceRound.Some?
    requires AreCounted(b, m.milestones.referenceRound.value, end.GetOr(now), rounds)
    requires rows == ClosingRows(b, m, end, now)
    ensures SumRows(b, m.participants, rounds, rows)
  {
    BarrierUntilStart(b, m);
    ClosingRanksWindows(b, m, end, now);
    ClosingRowsAreSums(b, m, end, now, rounds, rows);
  }

  lemma {:induction false} EntriesAreCollected(b: Book, m: Mesa)
    requires MesaOk(b, m) && m.milestones.initializationStatus == Some(READY) && m.terms.category != FREE
    ensures m.counters.grossCollected >= 0 && PrizeMoney(m) > 0
    ensures ExpectedTotals(m.terms, m.counters.grossCollected) == Pool(m.counters.grossCollected / 10, PrizeMoney(m))
  {
    BarrierUntilStart(b, m);
    EntryRevenueIsProduct(m.terms, |m.participants|);
    RevenueIsNotNegative(m.terms, |m.participants|);
    if m.terms.category == PAID {
      SomethingCollected(AccessCost(m.terms), |m.participants|);
    }
  }

  lemma {:induction false} SomethingCollected(cost: int, n: nat)
    requires cost > 0 && n > 0
    ensures n * cost > 0
  {}

  lemma {:induction false} DuePayoutsAre(b: Book, m: Mesa, end: Option<Time>, activePro: set<UserId>, now: Time,
                                         rounds: set<RoundNo>, d: seq<Item>, rows: seq<Row>)
    requires PaysOver(b, m, end, now, rounds, d) && rows == ClosingRows(b, m, end, now)
    ensures Distribution(m.terms).Ok? && SumRows(b, m.participants, rounds, rows) && PrizeMoney(m) > 0
    ensures DueSettlement(b, m, end, activePro, now).payouts == Payouts(PrizeMoney(m), d, Prizes(rows))
  {
    ClosingRowsHoldSums(b, m, end, now, rounds, rows);
    EntriesAreCollected(b, m);
    ValidDistributionsExactly(m.terms.prizeDistribution, d);
  }

  /** Whom a closing would pay: exactly the participants whose place, by what was earned over the
      rounds that count, is within the prizes. */
  lemma {:induction false} DuePaysPlaces(b: Book, m: Mesa, end: Option<Time>, activePro: set<UserId>, now: Time,
                                         rounds: set<RoundNo>, d: seq<Item>)
    requires PaysOver(b, m, end, now, rounds, d)
    ensures Distribution(m.terms).Ok?
    ensures PaysPlaces(b.history, b.users, m.participants, rounds, |d|,
      DueSettlement(b, m, end, activePro, now).payouts)
    ensures PaidOut(DueSettlement(b, m, end, activePro, now).payouts) == PrizeMoney(m)
  {
    var rows := ClosingRows(b, m, end, now);
    DuePayoutsAre(b, m, end, activePro, now, rounds, d, rows);
    EntriesAreCollected(b, m);
    BarrierUntilStart(b, m);
    DuePayouts(m.terms, m.counters.grossCollected, rows, activePro);
    RankingPaysPlaces(b, m.participants, rounds, rows, PrizeMoney(m), d,
                      DueSettlement(b, m, end, activePro, now).payouts);
  }

  /** What it would pay them: what is due to the place, rounded down, plus one unit for those with
      the largest fractions, the earlier first. */
  lemma {:induction false} DueAmounts(b: Book, m: Mesa, end: Option<Time>, activePro: set<UserId>, now: Time,
                                      rounds: set<RoundNo>, d: seq<Item>, payouts: seq<Payout>, i: nat, j: nat)
      returns (x: real, y: real)
    requires PaysOver(b, m, end, now, rounds, d) && Distribution(m.terms).Ok?
    requires payouts == DueSettlement(b, m, end, activePro, now).payouts && i < |payouts| && j < |payouts|
    ensures var (h, users, ps, p, q) := (b.history, b.users, m.participants, payouts[i].position, payouts[j].position);
      && p >= 1 && UsersPlaced(h, users, ps, rounds, p) != {} && q >= 1 && UsersPlaced(h, users, ps, rounds, q) != {}
      && Percentages(d[..Smaller(|ps|, |d|)]) > 0
      && x == DueAt(h, users, ps, rounds, PrizeMoney(m), d, p) && y == DueAt(h, users, ps, rounds, PrizeMoney(m), d, q)
    ensures payouts[i].amount == x.Floor || payouts[i].amount == x.Floor + 1
    ensures payouts[i].amount == x.Floor + 1 && payouts[j].amount == y.Floor ==>
      || x - x.Floor as real > y - y.Floor as real
      || (x - x.Floor as real == y - y.Floor as real && i < j)
  {
    var rows := ClosingRows(b, m, end, now);
    DuePayoutsAre(b, m, end, activePro, now, rounds, d, rows);
    x, y := RankingPaysDue(b, m.participants, rounds, rows, PrizeMoney(m), d, payouts, i, j);
  }

  // ---- the whole closing ----

  lemma {:induction false} CloseWholeParts(db: Db, id: MesaId, force: bool, activePro: set<UserId>, after: Db)
      returns (c: Closing)
    requires CloseWhole(db, id, force, activePro) == Ok(after)
    ensures id in db.mesas
    ensures CloseMesa(db.book, id, db.mesas[id], db.mesas[id].milestones.endDate, force, db.wallets, activePro, db.now)
      == Ok(c)
    ensures after == AfterClosing(db, id, c)
  {
    c := CloseMesa(db.book, id, db.mesas[id], db.mesas[id].milestones.endDate, force, db.wallets, activePro,
                   db.now).value;
  }

  lemma {:induction false} SettledAsDue(b: Book, id: MesaId, m: Mesa, end: Option<Time>, force: bool,
                                        wallets: map<UserId, Wallet>, activePro: set<UserId>, now: Time, c: Closing)
    requires MesaOk(b, m) && CloseMesa(b, id, m, end, force, wallets, activePro, now) == Ok(c)
    requires Distribution(m.terms).Ok?
    ensures c.settlement == Some(DueSettlement(b, m, end, activePro, now))
    ensures CreditAll(wallets, id, DueSettlement(b, m, end, activePro, now).eligible) == Some(c.wallets)
  {
    CloseSettles(b, id, m, end, force, wallets, activePro, now);
  }

  lemma {:induction false} FreePaysNothing(b: Book, m: Mesa, end: Option<Time>, activePro: set<UserId>, now: Time)
    requires m.terms.category == FREE
    ensures Distribution(m.terms).Ok? && DueSettlement(b, m, end, activePro, now).payouts == []
  {}

  /** What was due when it closed has been settled, each payout into the wallet of its user; of
      a sponsored Mesa only those of PRO users. Nothing else has been touched. */
  lemma {:induction false} ClosingPays(db: Db, id: MesaId, force: bool, activePro: set<UserId>, after: Db)
    requires Inv(db) && CloseWhole(db, id, force, activePro) == Ok(after)
    ensures id in db.mesas && id in after.mesas && id in after.settlements && Distribution(db.mesas[id].terms).Ok?
    ensures var (m, s) := (db.mesas[id], after.settlements[id]);
      && s.payouts == DueSettlement(db.book, m, m.milestones.endDate, activePro, db.now).payouts
      && (m.terms.category == FREE ==> s.payouts == [])
      && (forall p :: p in s.eligible <==>
        p in s.payouts && (m.terms.category == SPONSORED_FREE ==> p.userId in activePro))
      && (forall p :: p in s.withheld <==>
        p in s.payouts && m.terms.category == SPONSORED_FREE && p.userId !in activePro)
      && (forall i :: 0 <= i < |s.eligible| ==>
        WalletOf(after.wallets, s.eligible[i].userId)
          == PaidInto(WalletOf(db.wallets, s.eligible[i].userId), id, s.eligible[i].amount))
      && (forall u :: (forall i :: 0 <= i < |s.eligible| ==> s.eligible[i].userId != u) ==>
        WalletOf(after.wallets, u) == WalletOf(db.wallets, u))
    ensures after == db.(mesas := db.mesas[id := after.mesas[id]], wallets := after.wallets,
                         settlements := db.settlements[id := after.settlements[id]])
  {
    var c := CloseWholeParts(db, id, force, activePro, after);
    var m, end := db.mesas[id], db.mesas[id].milestones.endDate;
    SoundDistribution(m.terms);
    SettledAsDue(db.book, id, m, end, force, db.wallets, activePro, db.now, c);
    var due := DueSettlement(db.book, m, end, activePro, db.now);
    if m.terms.category == FREE {
      FreePaysNothing(db.book, m, end, activePro, db.now);
    }
    SplitLaws(m.terms, due.payouts, activePro);
    CloseSettles(db.book, id, m, end, force, db.wallets, activePro, db.now);
    DuePayouts(m.terms, m.counters.grossCollected, ClosingRows(db.book, m, end, db.now), activePro);
    forall i | 0 <= i < |due.eligible|
      ensures WalletOf(c.wallets, due.eligible[i].userId)
        == PaidInto(WalletOf(db.wallets, due.eligible[i].userId), id, due.eligible[i].amount)
    {
      CreditAllPaysInto(db.wallets, id, due.eligible, i);
    }
    forall u | forall i :: 0 <= i < |due.eligible| ==> due.eligible[i].userId != u
      ensures WalletOf(c.wallets, u) == WalletOf(db.wallets, u)
    {
      OthersGainNothing(db.wallets, id, due.eligible, u);
    }
  }

  /** The pools as a closed Mesa shows them. */
  function ClosedPools(m: Mesa): Pools {
    if m.terms.category == FREE then Pools(0, 0, Some(0))
    else Pools(m.counters.grossCollected / 10, PrizeMoney(m), Some(PrizeMoney(m)))
  }

  /** The closed Mesa: settled now, its pools paid out, and every participant stored with the sums
      over the rounds that count and the place that they give. */
  lemma {:induction false} ClosingStores(db: Db, id: MesaId, force: bool, activePro: set<UserId>, after: Db,
                                         rounds: set<RoundNo>, i: nat)
    requires Inv(db) && CloseWhole(db, id, force, activePro) == Ok(after)
    requires id in db.mesas && db.mesas[id].milestones.referenceRound.Some? && i < |db.mesas[id].participants|
    requires AreCounted(db.book, db.mesas[id].milestones.referenceRound.value,
      db.mesas[id].milestones.endDate.GetOr(db.now), rounds)
    ensures id in after.mesas && |after.mesas[id].participants| == |db.mesas[id].participants|
    ensures var (m, n) := (db.mesas[id], after.mesas[id]);
      && n == m.(status := MesaStatus.CLOSED, settledAt := Some(db.now), participants := n.participants,
        counters := m.counters.(pools := ClosedPools(m)))
      && var p := n.participants[i];
        && p == m.participants[i].(score := p.score, position := p.position, tiebreak := p.tiebreak)
        && FrozenOver(db.book.history, db.book.users, m.participants, p, rounds)
  {
    var c := CloseWholeParts(db, id, force, activePro, after);
    var m, end := db.mesas[id], db.mesas[id].milestones.endDate;
    ClosableIsUnpaid(db, id, end, force);
    GuardsPassExactly(db.book, m, end, force, db.now);
    ClosedFromSettled(db.book, id, m, end, force, db.wallets, activePro, db.now, c);
    FrozenScores(db.book, m, end, db.now, i, c.mesa.participants[i], rounds);
    if m.terms.category != FREE {
      EntriesAreCollected(db.book, m);
    }
  }

  /** The report of a Mesa in order holds the missing description, or nothing. */
  lemma {:induction false} ReportOfOrder(b: Book, m: Mesa)
    requires MesaOk(b, m)
    ensures Inspect(m) == if Trim(m.terms.description) == "" then [MISSING_PRIZE_RULES] else []
  {
    AllApproved(m.participants);
    SeatsFit(b, m);
    assert SoundSeats(m);
    DescribedReport(m);
  }

  lemma {:induction false} DescribedReport(m: Mesa)
    requires SoundTerms(m.terms) && SoundSeats(m)
    requires SoundPools(m.terms, m.counters, ApprovedCount(m.participants))
    ensures Inspect(m) == if Trim(m.terms.description) == "" then [MISSING_PRIZE_RULES] else []
  {
    var described := m.(terms := m.terms.(description := "-"));
    SamePools(m.terms, described.terms, m.counters, ApprovedCount(m.participants));
    assert Trim("-") == "-";
    EmptyReportExactly(described);
    OnlyTheDescription(m, described);
  }

  lemma {:induction false} SamePools(t: Terms, described: Terms, c: Counters, n: nat)
    requires described == t.(description := described.description) && SoundPools(t, c, n)
    ensures SoundPools(described, c, n)
  {
    EntryRevenueIsProduct(t, n);
    EntryRevenueIsProduct(described, n);
  }

  lemma {:induction false} OnlyTheDescription(m: Mesa, described: Mesa)
    requires described == m.(terms := m.terms.(description := "-")) && Inspect(described) == []
    ensures Inspect(m) == if Trim(m.terms.description) == "" then [MISSING_PRIZE_RULES] else []
  {
    var (a, b) := (TermsIssues(described.terms), SeatIssues(described));
    var (c, e) := (CompatibilityIssues(described.terms, m.counters.pools),
                   MoneyIssues(described.terms, m.counters, Approved(m.participants)));
    assert |a + b + c + e| == 0;
    assert TermsIssues(m.terms) == a == [] && SeatIssues(m) == b == [];
    assert MoneyIssues(m.terms, m.counters, Approved(m.participants)) == e == [];
  }

  /** Why a closing is refused, the first reason that applies; without any it goes through. */
  ghost function RefusalOf(db: Db, id: MesaId, force: bool, activePro: set<UserId>): Option<CloseError>
    requires id in db.mesas ==> Distribution(db.mesas[id].terms).Ok?
  {
    if id !in db.mesas then Some(RankingNotFound)
    else
      var m := db.mesas[id];
      if m.status == MesaStatus.CLOSED then Some(CloseError.AlreadyClosed)
      else if m.milestones.initializationStatus != Some(READY) then Some(AwaitingCapture)
      else if !force && (m.milestones.endDate.None? || m.milestones.endDate.value > db.now) then Some(NotExpired)
      else if Trim(m.terms.description) == "" then Some(SettlementBlocked([MISSING_PRIZE_RULES]))
      else if PaysNothing(m, DueSettlement(db.book, m, m.milestones.endDate, activePro, db.now).payouts, activePro)
      then Some(PayoutRefused)
      else None
  }

  /** Somebody who is to be paid is due nothing; a sponsored Mesa pays PRO users only. */
  predicate PaysNothing(m: Mesa, payouts: seq<Payout>, activePro: set<UserId>) {
    exists p ::
      p in payouts && p.amount <= 0 && (m.terms.category == SPONSORED_FREE ==> p.userId in activePro)
  }

  lemma {:induction false} GuardsInOrder(b: Book, m: Mesa, end: Option<Time>, force: bool, now: Time)
    requires MesaOk(b, m)
    ensures CloseProblem(m, end, force, now)
      == if m.status == MesaStatus.CLOSED then Some(CloseError.AlreadyClosed)
         else if m.milestones.initializationStatus != Some(READY) then Some(AwaitingCapture)
         else if !force && (end.None? || end.value > now) then Some(NotExpired)
         else if Trim(m.terms.description) == "" then Some(SettlementBlocked([MISSING_PRIZE_RULES]))
         else None
  {
    BarrierUntilStart(b, m);
    StatusOfStage(b, m);
    ReportOfOrder(b, m);
  }

  lemma {:induction false} PayableOrNothing(m: Mesa, payouts: seq<Payout>, activePro: set<UserId>)
    ensures Payable(Split(m.terms, payouts, activePro).eligible) <==> !PaysNothing(m, payouts, activePro)
  {
    SplitLaws(m.terms, payouts, activePro);
  }

  lemma {:induction false} PassedOrRefused(db: Db, id: MesaId, m: Mesa, end: Option<Time>, force: bool,
                                           activePro: set<UserId>)
    requires Inv(db) && id in db.mesas && m == db.mesas[id] && Distribution(m.terms).Ok?
    requires CloseProblem(m, end, force, db.now).None?
    ensures var closed := CloseMesa(db.book, id, m, end, force, db.wallets, activePro, db.now);
      if PaysNothing(m, DueSettlement(db.book, m, end, activePro, db.now).payouts, activePro)
      then closed == Err(PayoutRefused) else closed.Ok?
  {
    ClosableIsUnpaid(db, id, end, force);
    CloseExactly(db.book, id, m, end, force, db.wallets, activePro, db.now);
    GuardsPassExactly(db.book, m, end, force, db.now);
    PayableOrNothing(m, DueSettlement(db.book, m, end, activePro, db.now).payouts, activePro);
  }

  /** A closing goes through unless the Mesa is closed already, has not started, has not expired and is
      not forced, is not described, or somebody whom it would pay is due nothing; the first of
      these that applies is the error. */
  lemma {:induction false} CloseWholeExactly(db: Db, id: MesaId, force: bool, activePro: set<UserId>)
    requires Inv(db)
    ensures id in db.mesas ==> Distribution(db.mesas[id].terms).Ok?
    ensures var refusal := RefusalOf(db, id, force, activePro);
      if refusal.Some? then CloseWhole(db, id, force, activePro) == Err(refusal.value)
      else CloseWhole(db, id, force, activePro).Ok?
  {
    if id in db.mesas {
      var m, end := db.mesas[id], db.mesas[id].milestones.endDate;
      SoundDistribution(m.terms);
      GuardsInOrder(db.book, m, end, force, db.now);
      var problem := CloseProblem(m, end, force, db.now);
      if problem.Some? {
        assert CloseMesa(db.book, id, m, end, force, db.wallets, activePro, db.now) == Err(problem.value);
      } else {
        PassedOrRefused(db, id, m, end, force, activePro);
      }
    }
  }
}
