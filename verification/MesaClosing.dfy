/** Closing a Mesa that has kept the invariant. */
module MesaClosing {
  import opened Collections
  import opened Tiebreak
  import opened Prize
  import opened PrizeLaws
  import opened Payability
  import opened Domain
  import opened MesaRules
  import opened MesaIntegrity
  import opened Book
  import opened BookRun
  import opened Window
  import opened Wallets
  import opened Join
  import opened Lifecycle
  import opened Settlement
  import opened SettlementLaws
  import opened MesaInvariant

  // ---- the rows ----

  /** The rows of a started Mesa, unranked. */
  function ClosingRows(b: Book, m: Mesa, end: Option<Time>, now: Time): (rows: seq<Row>)
    ensures |rows| == |m.participants|
  {
    WindowRows(b, m.terms, m.milestones, end, m.participants, now)
  }

  lemma {:induction false} StartedMeetsBarrier(b: Book, m: Mesa)
    requires Seated(m) && Started(b, m) && m.milestones.initializationStatus == Some(READY)
    ensures Approved(m.participants) == m.participants && BarrierMet(m.milestones, m.participants)
  {
    AllApproved(m.participants);
  }

  /** The barrier stands exactly until the Mesa has started. */
  lemma {:induction false} BarrierUntilStart(b: Book, m: Mesa)
    requires MesaOk(b, m)
    ensures ReferenceLifecycle(m.milestones)
    ensures BarrierMet(m.milestones, Approved(m.participants)) <==> m.milestones.initializationStatus == Some(READY)
    ensures m.milestones.initializationStatus == Some(READY) ==> Started(b, m)
  {
    if m.milestones.initializationStatus == Some(READY) {
      StartedMeetsBarrier(b, m);
    }
  }

  lemma {:induction false} StatusOfStage(b: Book, m: Mesa)
    requires MesaOk(b, m)
    ensures m.settledAt.Some? <==> m.status == MesaStatus.CLOSED
    ensures m.milestones.initializationStatus == Some(READY) ==> m.status != MesaStatus.DRAFT
  {}

  /** The ranking is made of the window rows, never of placeholders. */
  lemma {:induction false} ClosingRanksWindows(b: Book, m: Mesa, end: Option<Time>, now: Time)
    requires MesaOk(b, m) && m.milestones.initializationStatus == Some(READY)
    ensures BuildRows(b, m.terms, m.milestones, end, Approved(m.participants), now)
      == Ranking(ClosingRows(b, m, end, now), RowMetrics)
    ensures DistinctWindowRows(ClosingRows(b, m, end, now))
  {
    BarrierUntilStart(b, m);
    StartedMeetsBarrier(b, m);
    var rows := ClosingRows(b, m, end, now);
    forall i | 0 <= i < |rows| ensures rows[i].userId == m.participants[i].userId {
      assert rows[i] == WindowRow(b, m.terms, m.milestones, end, m.participants[i], now);
    }
  }

  /** The guards of the closing pass exactly for a described, active Mesa that has met the
      barrier and has expired or is forced. */
  lemma {:induction false} GuardsPassExactly(b: Book, m: Mesa, end: Option<Time>, force: bool, now: Time)
    requires MesaOk(b, m)
    ensures CloseProblem(m, end, force, now).None?
      <==> (&& m.milestones.initializationStatus == Some(READY) && m.status == ACTIVE
            && (force || (end.Some? && end.value <= now))
            && Trim(m.terms.description) != "")
  {
    ReportIsEmpty(b, m);
    BarrierUntilStart(b, m);
    StatusOfStage(b, m);
  }

  /** Somebody takes part whose initial score is still to be captured, or the Mesa as a whole is. */
  predicate CaptureIsMissing(m: Mesa) {
    || m.milestones.initializationStatus != Some(READY) || m.milestones.referenceRound.None?
    || m.milestones.scoreInitialCapturedAt.None?
    || exists p :: p in m.participants && p.status == APPROVED && p.scoreInitialCapturedAt.None?
  }

  /** The guards on any Mesa, in order; one older than the lifecycle waits for no capture, and one
      that is settled already is not inspected again. */
  lemma {:induction false} GuardsOfAnyMesa(m: Mesa, end: Option<Time>, force: bool, now: Time)
    ensures CloseProblem(m, end, force, now)
      == if m.status == MesaStatus.CLOSED then Some(CloseError.AlreadyClosed)
         else if (m.milestones.referenceRound.Some? || m.milestones.initializationStatus.Some?) && CaptureIsMissing(m)
         then Some(AwaitingCapture)
         else if !force && (end.None? || now < end.value) then Some(NotExpired)
         else if m.settledAt.None? && Inspect(m) != [] then Some(SettlementBlocked(Inspect(m)))
         else None
  {
    assert forall p :: p in Approved(m.participants) <==> p in m.participants && p.status == APPROVED;
  }

  /** Closing a Mesa that is settled already moves no money; it freezes the ranking and closes. */
  lemma {:induction false} SettledIsNotPaidAgain(b: Book, id: MesaId, m: Mesa, end: Option<Time>, force: bool,
                                                 wallets: map<UserId, Wallet>, activePro: set<UserId>, now: Time)
    requires m.settledAt.Some? && CloseProblem(m, end, force, now).None?
    ensures var closed := CloseMesa(b, id, m, end, force, wallets, activePro, now);
      && closed.Ok? && closed.value.wallets == wallets && closed.value.settlement.None?
      && closed.value.mesa == m.(status := MesaStatus.CLOSED, participants := closed.value.mesa.participants)
      && closed.value.mesa.participants
        == Frozen(m.participants, BuildRows(b, m.terms, m.milestones, end, Approved(m.participants), now))
  {}

  // ---- freezing keeps everything but scores and positions ----

  lemma {:induction false} FrozenKeeps(m: Mesa, rows: seq<Ranked<Row>>, after: Mesa)
    requires Seated(m) && after.participants == Frozen(m.participants, rows)
    requires after.terms == m.terms && after.counters == m.counters
    ensures Seated(after)
    ensures MoneyOk(m) ==> MoneyOk(after)
  {
    forall p | p in after.participants
      ensures exists q ::
        q in m.participants && p == q.(score := p.score, position := p.position, tiebreak := p.tiebreak)
    {
      var i :| 0 <= i < |after.participants| && after.participants[i] == p;
      assert m.participants[i] in m.participants;
    }
  }

  lemma {:induction false} FrozenKeepsCapture(b: Book, ps: seq<Participant>, rows: seq<Ranked<Row>>, reference: RoundNo)
    requires CapturedAt(b, ps, reference)
    ensures CapturedAt(b, Frozen(ps, rows), reference)
  {}

  // ---- the money ----

  lemma {:induction false} RevenueIsNotNegative(t: Terms, n: nat)
    ensures EntryRevenue(t, n) >= 0
  {
    if n > 0 {
      RevenueIsNotNegative(t, n - 1);
    }
  }

  lemma {:induction false} SettledPoolsAreSound(t: Terms, c: Counters, n: nat)
    requires SoundPools(t, c, n)
    ensures SoundPools(t, SettledPools(c, ExpectedTotals(t, c.grossCollected)), n)
  {}

  ghost predicate NobodyPaid(wallets: map<UserId, Wallet>, id: MesaId) {
    forall u :: Unpaid(wallets, id, u)
  }

  lemma {:induction false} FilteredExactly(payouts: seq<Payout>, users: set<UserId>, inside: bool)
    ensures forall p :: p in Filtered(payouts, users, inside) <==> p in payouts && (p.userId in users) == inside
  {
    if payouts != [] {
      var init, last := payouts[..|payouts| - 1], payouts[|payouts| - 1];
      assert payouts == init + [last];
      FilteredExactly(init, users, inside);
    }
  }

  lemma {:induction false} SplitLaws(t: Terms, payouts: seq<Payout>, activePro: set<UserId>)
    ensures var s := Split(t, payouts, activePro);
      && PaidOut(s.eligible) + PaidOut(s.withheld) == PaidOut(payouts)
      && (DistinctPayees(payouts) ==> DistinctPayees(s.eligible))
      && (forall p :: p in s.eligible <==>
        p in payouts && (t.category == SPONSORED_FREE ==> p.userId in activePro))
      && (forall p :: p in s.withheld <==>
        p in payouts && t.category == SPONSORED_FREE && p.userId !in activePro)
  {
    SplitPaysAll(payouts, activePro);
    FilteredExactly(payouts, activePro, true);
    FilteredExactly(payouts, activePro, false);
    if DistinctPayees(payouts) {
      FilteredPayeesAreDistinct(payouts, activePro, true);
    }
  }

  lemma {:induction false} PrizeRowUsers(ranked: seq<Ranked<Row>>)
    ensures forall i :: 0 <= i < |ranked| ==> PrizeRows(ranked, RowMetrics)[i].userId == ranked[i].row.userId
  {
    forall i | 0 <= i < |ranked| ensures PrizeRows(ranked, RowMetrics)[i].userId == ranked[i].row.userId {
      assert RowMetrics(ranked[i].row).userId == ranked[i].row.userId;
    }
  }

  /** The payouts of a sound ranked Mesa are its prize, to users not paid yet. */
  lemma {:induction false} DuePayouts(t: Terms, gross: int, rows: seq<Row>, activePro: set<UserId>)
    requires SoundTerms(t) && gross >= 0 && rows != [] && DistinctWindowRows(rows)
    ensures Distribution(t).Ok?
    ensures var s := SettlementOf(t, gross, Ranking(rows, RowMetrics), activePro);
      && PaidOut(s.payouts) == ExpectedTotals(t, gross).prizePool == PaidOut(s.eligible) + PaidOut(s.withheld)
      && DistinctPayees(s.eligible)
  {
    var ranked := Ranking(rows, RowMetrics);
    RankingHasCompetitionPositions(rows, RowMetrics);
    RankedUsersAreDistinct(rows);
    PrizeRowUsers(ranked);
    SoundDistribution(t);
    SettlementPaysThePrize(t, gross, PrizeRows(ranked, RowMetrics));
    SplitLaws(t, Payouts(ExpectedTotals(t, gross).prizePool, Distribution(t).value, PrizeRows(ranked, RowMetrics)),
      activePro);
  }

  /** Settling a ranked Mesa goes through exactly when nobody is to be paid nothing. */
  lemma {:induction false} SettleExactly(id: MesaId, m: Mesa, rows: seq<Row>, wallets: map<UserId, Wallet>,
                                         activePro: set<UserId>, now: Time)
    requires SoundTerms(m.terms) && m.counters.grossCollected >= 0 && rows != [] && DistinctWindowRows(rows)
    requires WalletsOk(wallets) && NobodyPaid(wallets, id)
    ensures Distribution(m.terms).Ok?
    ensures var settled := Settle(id, m, Ranking(rows, RowMetrics), wallets, activePro, now);
      var due := SettlementOf(m.terms, m.counters.grossCollected, Ranking(rows, RowMetrics), activePro);
      && (settled.Ok? <==> Payable(due.eligible))
      && (settled.Err? ==> settled.error == PayoutRefused)
  {
    DuePayouts(m.terms, m.counters.grossCollected, rows, activePro);
    CreditAllExactly(wallets, id,
                     SettlementOf(m.terms, m.counters.grossCollected, Ranking(rows, RowMetrics), activePro).eligible);
  }

  /** Then it moves the prize less what is withheld into the wallets, and touches no other key. */
  lemma {:induction false} SettleMoves(id: MesaId, m: Mesa, rows: seq<Row>, wallets: map<UserId, Wallet>,
                                       activePro: set<UserId>, now: Time, c: Closing)
    requires SoundTerms(m.terms) && m.counters.grossCollected >= 0 && rows != [] && DistinctWindowRows(rows)
    requires WalletsOk(wallets) && NobodyPaid(wallets, id)
    requires Settle(id, m, Ranking(rows, RowMetrics), wallets, activePro, now) == Ok(c)
    ensures c.settlement.Some?
    ensures var (totals, s) := (ExpectedTotals(m.terms, m.counters.grossCollected), c.settlement.value);
      && c.mesa == m.(settledAt := Some(now), counters := SettledPools(m.counters, totals))
      && PaidOut(s.payouts) == totals.prizePool
      && WalletsOk(c.wallets) && OnlyCredited(wallets, c.wallets, id)
      && Total(Balances(c.wallets)) == Total(Balances(wallets)) + totals.prizePool - PaidOut(s.withheld)
  {
    DuePayouts(m.terms, m.counters.grossCollected, rows, activePro);
    CreditAllExactly(wallets, id,
                     SettlementOf(m.terms, m.counters.grossCollected, Ranking(rows, RowMetrics), activePro).eligible);
  }

  // ---- the whole closing ----

  /** Who is to be paid what when a started Mesa is closed. */
  function DueSettlement(b: Book, m: Mesa, end: Option<Time>, activePro: set<UserId>, now: Time): Settlement
    requires Distribution(m.terms).Ok?
  {
    SettlementOf(m.terms, m.counters.grossCollected, Ranking(ClosingRows(b, m, end, now), RowMetrics), activePro)
  }

  /** The Mesa as the settlement finds it. */
  function FrozenMesa(b: Book, m: Mesa, end: Option<Time>, now: Time): Mesa {
    m.(participants := Frozen(m.participants, Ranking(ClosingRows(b, m, end, now), RowMetrics)))
  }

  /** Closing a started Mesa freezes it on its window rows and settles it. */
  lemma {:induction false} CloseSettles(b: Book, id: MesaId, m: Mesa, end: Option<Time>, force: bool,
                                        wallets: map<UserId, Wallet>, activePro: set<UserId>, now: Time)
    requires MesaOk(b, m) && CloseProblem(m, end, force, now).None?
    ensures m.counters.grossCollected >= 0 && m.participants != [] && DistinctWindowRows(ClosingRows(b, m, end, now))
    ensures var settled := Settle(id, FrozenMesa(b, m, end, now), Ranking(ClosingRows(b, m, end, now), RowMetrics),
                                  wallets, activePro, now);
      CloseMesa(b, id, m, end, force, wallets, activePro, now)
        == if settled.Err? then settled
           else Ok(settled.value.(mesa := settled.value.mesa.(status := MesaStatus.CLOSED)))
  {
    GuardsPassExactly(b, m, end, force, now);
    ClosingRanksWindows(b, m, end, now);
    RevenueIsNotNegative(m.terms, |m.participants|);
    BarrierUntilStart(b, m);
    StatusOfStage(b, m);
  }

  /** The closing theorem: a Mesa in order is closed if and only if its initial scores have been
      captured, it is active, has expired or is forced, is described -- and everybody who is to
      be paid is to be paid something. Otherwise the payout of nothing is refused by the ledger,
      and with it the closing. */
  lemma {:induction false} CloseExactly(b: Book, id: MesaId, m: Mesa, end: Option<Time>, force: bool,
                                        wallets: map<UserId, Wallet>, activePro: set<UserId>, now: Time)
    requires MesaOk(b, m) && WalletsOk(wallets) && NobodyPaid(wallets, id)
    ensures Distribution(m.terms).Ok?
    ensures CloseMesa(b, id, m, end, force, wallets, activePro, now).Ok?
      <==> (&& m.milestones.initializationStatus == Some(READY) && m.status == ACTIVE
            && (force || (end.Some? && end.value <= now))
            && Trim(m.terms.description) != ""
            && Payable(DueSettlement(b, m, end, activePro, now).eligible))
    ensures CloseProblem(m, end, force, now).None? && !Payable(DueSettlement(b, m, end, activePro, now).eligible)
      ==> CloseMesa(b, id, m, end, force, wallets, activePro, now) == Err(PayoutRefused)
  {
    SoundDistribution(m.terms);
    GuardsPassExactly(b, m, end, force, now);
    if CloseProblem(m, end, force, now).None? {
      CloseSettles(b, id, m, end, force, wallets, activePro, now);
      SettleExactly(id, FrozenMesa(b, m, end, now), ClosingRows(b, m, end, now), wallets, activePro, now);
    }
  }

  lemma {:induction false} ClosedFromSettled(b: Book, id: MesaId, m: Mesa, end: Option<Time>, force: bool,
                                             wallets: map<UserId, Wallet>, activePro: set<UserId>, now: Time,
                                             c: Closing)
    requires MesaOk(b, m) && WalletsOk(wallets) && NobodyPaid(wallets, id)
    requires CloseMesa(b, id, m, end, force, wallets, activePro, now) == Ok(c)
    ensures c.settlement.Some?
    ensures var (frozen, totals) := (FrozenMesa(b, m, end, now), ExpectedTotals(m.terms, m.counters.grossCollected));
      && c.mesa == frozen.(settledAt := Some(now), counters := SettledPools(m.counters, totals),
        status := MesaStatus.CLOSED)
      && PaidOut(c.settlement.value.payouts) == totals.prizePool
      && WalletsOk(c.wallets) && OnlyCredited(wallets, c.wallets, id)
      && Total(Balances(c.wallets))
        == Total(Balances(wallets)) + totals.prizePool - PaidOut(c.settlement.value.withheld)
  {
    CloseSettles(b, id, m, end, force, wallets, activePro, now);
    var rows := ClosingRows(b, m, end, now);
    var settled := Settle(id, FrozenMesa(b, m, end, now), Ranking(rows, RowMetrics), wallets, activePro, now).value;
    SettleMoves(id, FrozenMesa(b, m, end, now), rows, wallets, activePro, now, settled);
  }

  /** What closing makes of the Mesa: it is settled and closed, its scores are frozen, its pools
      show what is paid out, and it stays in order. */
  lemma {:induction false} ClosedMesa(b: Book, id: MesaId, m: Mesa, end: Option<Time>, force: bool,
                                      wallets: map<UserId, Wallet>, activePro: set<UserId>, now: Time, c: Closing)
    requires MesaOk(b, m) && WalletsOk(wallets) && NobodyPaid(wallets, id)
    requires CloseMesa(b, id, m, end, force, wallets, activePro, now) == Ok(c)
    ensures MesaOk(b, c.mesa) && c.mesa.status == MesaStatus.CLOSED && c.mesa.settledAt == Some(now)
    ensures c.mesa.terms == m.terms && c.mesa.milestones == m.milestones
    ensures c.mesa.counters == SettledPools(m.counters, ExpectedTotals(m.terms, m.counters.grossCollected))
    ensures c.mesa.participants == Frozen(m.participants, Ranking(ClosingRows(b, m, end, now), RowMetrics))
  {
    ClosedFromSettled(b, id, m, end, force, wallets, activePro, now, c);
    GuardsPassExactly(b, m, end, force, now);
    ClosedStaysOk(b, m, Ranking(ClosingRows(b, m, end, now), RowMetrics), now, c.mesa);
  }

  lemma {:induction false} ClosedStaysOk(b: Book, m: Mesa, rows: seq<Ranked<Row>>, now: Time, after: Mesa)
    requires MesaOk(b, m) && m.milestones.initializationStatus == Some(READY)
    requires after == m.(participants := Frozen(m.participants, rows), settledAt := Some(now),
                         status := MesaStatus.CLOSED,
                         counters := SettledPools(m.counters, ExpectedTotals(m.terms, m.counters.grossCollected)))
    ensures MesaOk(b, after)
  {
    var frozen := m.(participants := Frozen(m.participants, rows));
    FrozenKeeps(m, rows, frozen);
    FrozenKeepsCapture(b, m.participants, rows, m.milestones.referenceRound.value);
    SettledPoolsAreSound(m.terms, m.counters, |m.participants|);
  }

  /** Where the money goes: what was collected -- with the sponsor's, if there is one -- is now
      fee, payouts and withheld payouts, and no other key has been touched. */
  lemma {:induction false} ClosedMoney(b: Book, id: MesaId, m: Mesa, end: Option<Time>, force: bool,
                                       wallets: map<UserId, Wallet>, activePro: set<UserId>, now: Time, c: Closing)
    requires MesaOk(b, m) && WalletsOk(wallets) && NobodyPaid(wallets, id)
    requires CloseMesa(b, id, m, end, force, wallets, activePro, now) == Ok(c)
    ensures c.settlement.Some?
    ensures var (totals, s) := (ExpectedTotals(m.terms, m.counters.grossCollected), c.settlement.value);
      && PaidOut(s.payouts) == totals.prizePool
      && WalletsOk(c.wallets) && OnlyCredited(wallets, c.wallets, id)
      && Total(Balances(c.wallets)) == Total(Balances(wallets)) + totals.prizePool - PaidOut(s.withheld)
  {
    ClosedFromSettled(b, id, m, end, force, wallets, activePro, now, c);
  }

  // ---- the scores ----

  lemma {:induction false} FrozenWithRow(ps: seq<Participant>, rows: seq<Row>, i: nat)
    requires DistinctWindowRows(rows) && i < |rows| == |ps| && rows[i].userId == ps[i].userId
    ensures Frozen(ps, Ranking(rows, RowMetrics))[i]
      == FrozenAs(ps[i], Ranked(rows[i], 1 + CountBetter(rows, RowMetrics, RowMetrics(rows[i]))))
  {
    RankedRowFor(rows, i);
  }

  /** The participant has been frozen with the row. */
  predicate StoresRow(p: Participant, row: Row) {
    && p.userId == row.userId && p.score == row.score
    && p.tiebreak == Some(StoredTiebreak(row.hits, row.userCreatedAt))
  }

  lemma {:induction false} FrozenStores(ps: seq<Participant>, rows: seq<Row>, i: nat)
    requires DistinctWindowRows(rows) && i < |rows| == |ps| && rows[i].userId == ps[i].userId
    ensures StoresRow(Frozen(ps, Ranking(rows, RowMetrics))[i], rows[i])
    ensures Frozen(ps, Ranking(rows, RowMetrics))[i].position
      == Some(1 + CountBetter(rows, RowMetrics, RowMetrics(rows[i])))
  {
    FrozenWithRow(ps, rows, i);
  }

  /** The hits that a user has earned in the rounds. */
  function HitsOver(b: Book, u: UserId, rounds: set<RoundNo>): Hits {
    Hits(Earned(b.history, u, rounds, SuperDoubles), Earned(b.history, u, rounds, Doubles))
  }

  /** The row of the participant, in the terms of the history. */
  ghost predicate RowIsTheSum(b: Book, row: Row, rounds: set<RoundNo>) {
    && row.score == Earned(b.history, row.userId, rounds, Score) && row.hits == HitsOver(b, row.userId, rounds)
    && row.userCreatedAt == UserOf(b, row.userId).createdAt
  }

  lemma {:induction false} ClosingRowIsTheSum(b: Book, m: Mesa, end: Option<Time>, now: Time, i: nat, row: Row)
    requires BookOk(b) && Started(b, m) && i < |m.participants| && row == ClosingRows(b, m, end, now)[i]
    ensures row.userId == m.participants[i].userId
    ensures RowIsTheSum(b, row, Counted(b, m.milestones.referenceRound.value, end.GetOr(now)))
  {
    assert m.participants[i] in m.participants;
    ReferenceRowIsTheSum(b, m.participants[i], m.terms.startDate, m.milestones.referenceRound.value, end.GetOr(now));
  }

  function AccountAge(users: map<UserId, User>, u: UserId): Time {
    if u in users then users[u].createdAt else 0
  }

  /** Officially ahead by what the two have earned over the rounds: score, then super doubles, then
      doubles, then the older account. */
  ghost predicate AheadOver(h: seq<History>, users: map<UserId, User>, u: UserId, v: UserId, rounds: set<RoundNo>) {
    var score, superDoubles, doubles := Earned(h, u, rounds, Score) - Earned(h, v, rounds, Score),
      Earned(h, u, rounds, SuperDoubles) - Earned(h, v, rounds, SuperDoubles),
      Earned(h, u, rounds, Doubles) - Earned(h, v, rounds, Doubles);
    || score > 0
    || (score == 0 && superDoubles > 0)
    || (score == 0 && superDoubles == 0 && doubles > 0)
    || (score == 0 && superDoubles == 0 && doubles == 0 && AccountAge(users, u) < AccountAge(users, v))
  }

  /** One plus the number of participants who are officially ahead of the user. */
  ghost function PlaceOver(h: seq<History>, users: map<UserId, User>, ps: seq<Participant>, u: UserId,
                           rounds: set<RoundNo>): int {
    1 + |set j: nat | j < |ps| && AheadOver(h, users, ps[j].userId, u, rounds)|
  }

  /** The participant is frozen with what was earned over the rounds, and at that place. */
  ghost predicate FrozenOver(h: seq<History>, users: map<UserId, User>, ps: seq<Participant>, p: Participant,
                             rounds: set<RoundNo>) {
    && p.score == Earned(h, p.userId, rounds, Score) && p.position == Some(PlaceOver(h, users, ps, p.userId, rounds))
    && p.tiebreak.Some? && p.tiebreak.value.hits.superDoubleHits == Earned(h, p.userId, rounds, SuperDoubles)
    && p.tiebreak.value.hits.doubleHits == Earned(h, p.userId, rounds, Doubles)
    && p.tiebreak.value.userCreatedAt == AccountAge(users, p.userId)
  }

  lemma {:induction false} BetterIsAhead(b: Book, x: Row, y: Row, rounds: set<RoundNo>)
    requires RowIsTheSum(b, x, rounds) && RowIsTheSum(b, y, rounds)
    ensures Better(RowMetrics(x), RowMetrics(y)) <==> AheadOver(b.history, b.users, x.userId, y.userId, rounds)
  {}

  lemma {:induction false} PlaceIsCounted(b: Book, rows: seq<Row>, ps: seq<Participant>, i: nat, rounds: set<RoundNo>)
    requires i < |rows| == |ps| && forall j :: 0 <= j < |rows| ==> rows[j].userId == ps[j].userId
    requires forall j :: 0 <= j < |rows| ==> RowIsTheSum(b, rows[j], rounds)
    ensures 1 + CountBetter(rows, RowMetrics, RowMetrics(rows[i]))
      == PlaceOver(b.history, b.users, ps, ps[i].userId, rounds)
  {
    var ahead := set j: nat | j < |ps| && AheadOver(b.history, b.users, ps[j].userId, ps[i].userId, rounds);
    forall j: nat | true
      ensures j in ahead <==> j < |rows| && Better(RowMetrics(rows[j]), RowMetrics(rows[i]))
    {
      if j < |rows| {
        BetterIsAhead(b, rows[j], rows[i], rounds);
      }
    }
    CountBetterCounts(rows, RowMetrics, RowMetrics(rows[i]), ahead);
  }

  /** The rounds are those that count: scored, after the reference round, closed by the end. */
  ghost predicate AreCounted(b: Book, reference: RoundNo, end: Time, rounds: set<RoundNo>) {
    forall n :: n in rounds
      <==> (&& n in b.rounds && b.rounds[n].status == SCORED && n > reference
            && b.rounds[n].closeAt.Some? && b.rounds[n].closeAt.value <= end)
  }

  lemma {:induction false} CountedExactly(b: Book, reference: RoundNo, end: Time, rounds: set<RoundNo>)
    requires AreCounted(b, reference, end, rounds)
    ensures rounds == Counted(b, reference, end)
  {
    forall n: RoundNo | true ensures n in rounds <==> n in Counted(b, reference, end) {}
  }

  lemma {:induction false} FrozenRow(b: Book, m: Mesa, rows: seq<Row>, i: nat, p: Participant, rounds: set<RoundNo>)
    requires i < |rows| == |m.participants| && DistinctWindowRows(rows)
    requires forall j :: 0 <= j < |rows| ==> rows[j].userId == m.participants[j].userId
    requires forall j :: 0 <= j < |rows| ==> RowIsTheSum(b, rows[j], rounds)
    requires p == Frozen(m.participants, Ranking(rows, RowMetrics))[i]
    ensures p.userId == m.participants[i].userId && FrozenOver(b.history, b.users, m.participants, p, rounds)
  {
    FrozenStores(m.participants, rows, i);
    PlaceIsCounted(b, rows, m.participants, i, rounds);
  }

  lemma {:induction false} ClosingRowsAreSums(b: Book, m: Mesa, end: Option<Time>, now: Time, rounds: set<RoundNo>,
                                              rows: seq<Row>)
    requires BookOk(b) && Started(b, m) && rows == ClosingRows(b, m, end, now)
    requires AreCounted(b, m.milestones.referenceRound.value, end.GetOr(now), rounds)
    ensures forall j :: 0 <= j < |rows| ==> rows[j].userId == m.participants[j].userId
    ensures forall j :: 0 <= j < |rows| ==> RowIsTheSum(b, rows[j], rounds)
  {
    CountedExactly(b, m.milestones.referenceRound.value, end.GetOr(now), rounds);
    forall j | 0 <= j < |rows| ensures rows[j].userId == m.participants[j].userId && RowIsTheSum(b, rows[j], rounds) {
      ClosingRowIsTheSum(b, m, end, now, j, rows[j]);
    }
  }

  lemma {:induction false} FrozenKeepsTheRest(ps: seq<Participant>, rows: seq<Ranked<Row>>, i: nat)
    requires i < |ps|
    ensures var p := Frozen(ps, rows)[i];
      p == ps[i].(score := p.score, position := p.position, tiebreak := p.tiebreak)
  {}

  /** A closing freezes every participant with what was earned over the rounds that count, score
      and hits, at one plus the number of participants ahead by that. */
  lemma {:induction false} FrozenScores(b: Book, m: Mesa, end: Option<Time>, now: Time, i: nat, p: Participant,
                                        rounds: set<RoundNo>)
    requires BookOk(b) && MesaOk(b, m) && m.milestones.initializationStatus == Some(READY) && i < |m.participants|
    requires p == FrozenMesa(b, m, end, now).participants[i] && m.milestones.referenceRound.Some?
    requires AreCounted(b, m.milestones.referenceRound.value, end.GetOr(now), rounds)
    ensures p == m.participants[i].(score := p.score, position := p.position, tiebreak := p.tiebreak)
    ensures FrozenOver(b.history, b.users, m.participants, p, rounds)
  {
    var rows := ClosingRows(b, m, end, now);
    BarrierUntilStart(b, m);
    ClosingRanksWindows(b, m, end, now);
    ClosingRowsAreSums(b, m, end, now, rounds, rows);
    FrozenKeepsTheRest(m.participants, Ranking(rows, RowMetrics), i);
    FrozenRow(b, m, rows, i, p, rounds);
  }

  /** A Mesa of rounds that is closed on expiry counts exactly its number of scored rounds
      after the reference round. */
  lemma {:induction false} ClosedOnExpiry(b: Book, m: Mesa, now: Time)
    requires BookOk(b) && MesaOk(b, m) && m.terms.durationMode == ROUNDS
    requires CloseProblem(m, m.milestones.endDate, false, now).None?
    ensures m.milestones.referenceRound.Some? && m.terms.durationRounds.Some? && m.terms.durationRounds.value > 0
    ensures m.terms.durationRounds.value
      <= |ScoredAfter(b, b.numbers, m.milestones.referenceRound.value)|
    ensures var rounds := FirstRounds(b, m.milestones.referenceRound.value, m.terms.durationRounds.value);
      && |rounds| == m.terms.durationRounds.value
      && Counted(b, m.milestones.referenceRound.value, m.milestones.endDate.GetOr(now)) == rounds
  {
    GuardsPassExactly(b, m, m.milestones.endDate, false, now);
    CountedByDueDate(b, m.milestones.referenceRound.value, m.terms.durationRounds.value);
  }

  // ---- the order of the rows in the database does not matter ----

  lemma {:induction false} WindowRowsPermuted(b: Book, t: Terms, ms: Milestones, end: Option<Time>,
                                              ps: seq<Participant>,
                                              qs: seq<Participant>, now: Time)
    requires multiset(ps) == multiset(qs)
    ensures multiset(WindowRows(b, t, ms, end, ps, now)) == multiset(WindowRows(b, t, ms, end, qs, now))
  {
    ImagesPermuted(ps, qs, p => WindowRow(b, t, ms, end, p, now),
                   WindowRows(b, t, ms, end, ps, now), WindowRows(b, t, ms, end, qs, now));
  }

  lemma {:induction false} WindowRowsAreDistinct(b: Book, t: Terms, ms: Milestones, end: Option<Time>,
                                                 ps: seq<Participant>, now: Time)
    requires OneRowPerUser(ps)
    ensures DistinctUsers(WindowRows(b, t, ms, end, ps, now), RowMetrics)
  {}

  lemma {:induction false} CapturePermuted(ps: seq<Participant>, qs: seq<Participant>)
    requires multiset(ps) == multiset(qs) && AllCaptured(ps)
    ensures AllCaptured(qs)
  {
    forall q | q in qs ensures q.scoreInitialCapturedAt.Some? {
      assert q in multiset(ps);
    }
  }

  /** However the database lists the participants, a started Mesa gets the same rows, and so
      the same payouts. */
  lemma {:induction false} RowsIgnoreDatabaseOrder(b: Book, t: Terms, ms: Milestones, end: Option<Time>,
                                                   ps: seq<Participant>,
                                                   qs: seq<Participant>, now: Time)
    requires multiset(ps) == multiset(qs) && OneRowPerUser(ps)
    requires ReferenceLifecycle(ms) ==> BarrierMet(ms, ps)
    ensures BuildRows(b, t, ms, end, ps, now) == BuildRows(b, t, ms, end, qs, now)
  {
    if ReferenceLifecycle(ms) {
      CapturePermuted(ps, qs);
    }
    WindowRowsPermuted(b, t, ms, end, ps, qs, now);
    WindowRowsAreDistinct(b, t, ms, end, ps, now);
    RankingIgnoresRowOrder(WindowRows(b, t, ms, end, ps, now), WindowRows(b, t, ms, end, qs, now), RowMetrics);
  }

  lemma {:induction false} OneRowPermuted(ps: seq<Participant>, qs: seq<Participant>)
    requires multiset(ps) == multiset(qs) && OneRowPerUser(ps)
    ensures OneRowPerUser(qs) && |qs| == |ps|
  {
    assert |qs| == |multiset(qs)| == |multiset(ps)|;
    DistinctPermuted(ps, qs);
    forall i, j | 0 <= i < j < |qs| ensures qs[i].userId != qs[j].userId {
      assert qs[i] in multiset(qs) && qs[j] in multiset(qs);
      var k :| 0 <= k < |ps| && ps[k] == qs[i];
      var l :| 0 <= l < |ps| && ps[l] == qs[j];
    }
  }

  /** A Mesa stays in order however its participants are listed. */
  lemma {:induction false} PermutedMesaIsOk(b: Book, m: Mesa, qs: seq<Participant>)
    requires MesaOk(b, m) && multiset(m.participants) == multiset(qs)
    ensures MesaOk(b, m.(participants := qs))
  {
    OneRowPermuted(m.participants, qs);
    forall q | q in qs ensures q in m.participants {
      assert q in multiset(qs);
    }
  }

  lemma {:induction false} SettleIgnoresParticipants(id: MesaId, m: Mesa, other: Mesa, rows: seq<Ranked<Row>>,
                                                     wallets: map<UserId, Wallet>, activePro: set<UserId>, now: Time)
    requires other.terms == m.terms && other.counters == m.counters
    ensures var (x, y) :=
      (Settle(id, m, rows, wallets, activePro, now), Settle(id, other, rows, wallets, activePro, now));
      && (x.Err? ==> y == x)
      && (x.Ok? ==> y.Ok? && y.value.wallets == x.value.wallets && y.value.settlement == x.value.settlement)
  {}

  /** However the database lists the participants of a Mesa, its closing goes through or not, and
      pays the same users the same amounts. */
  lemma {:induction false} PayoutsIgnoreDatabaseOrder(b: Book, id: MesaId, m: Mesa, qs: seq<Participant>,
                                                      end: Option<Time>, force: bool,
                                                      wallets: map<UserId, Wallet>, activePro: set<UserId>, now: Time)
    requires MesaOk(b, m) && multiset(m.participants) == multiset(qs)
    ensures var x := CloseMesa(b, id, m, end, force, wallets, activePro, now);
      var y := CloseMesa(b, id, m.(participants := qs), end, force, wallets, activePro, now);
      && (x.Ok? <==> y.Ok?)
      && (x.Ok? ==> y.value.wallets == x.value.wallets && y.value.settlement == x.value.settlement)
  {
    var other := m.(participants := qs);
    PermutedMesaIsOk(b, m, qs);
    GuardsPassExactly(b, m, end, force, now);
    GuardsPassExactly(b, other, end, force, now);
    if CloseProblem(m, end, force, now).None? {
      CloseSettles(b, id, m, end, force, wallets, activePro, now);
      CloseSettles(b, id, other, end, force, wallets, activePro, now);
      ClosingRowsPermuted(b, m, qs, end, now);
      SettleIgnoresParticipants(id, FrozenMesa(b, m, end, now), FrozenMesa(b, other, end, now),
                                Ranking(ClosingRows(b, m, end, now), RowMetrics), wallets, activePro, now);
    }
  }

  lemma {:induction false} ClosingRowsPermuted(b: Book, m: Mesa, qs: seq<Participant>, end: Option<Time>, now: Time)
    requires Seated(m) && multiset(m.participants) == multiset(qs)
    ensures Ranking(ClosingRows(b, m.(participants := qs), end, now), RowMetrics)
      == Ranking(ClosingRows(b, m, end, now), RowMetrics)
  {
    WindowRowsPermuted(b, m.terms, m.milestones, end, m.participants, qs, now);
    WindowRowsAreDistinct(b, m.terms, m.milestones, end, m.participants, now);
    RankingIgnoresRowOrder(ClosingRows(b, m, end, now), ClosingRows(b, m.(participants := qs), end, now), RowMetrics);
  }
}
