/** A Mesa of rounds that has expired: its settlement does not depend on when it is run, and a
    prize too small for its distribution keeps it open. */
module ExpiredMesas {
  import opened Collections
  import opened Tiebreak
  import opened Prize
  import opened PrizeLaws
  import opened Payability
  import opened Domain
  import opened MesaRules
  import opened MesaIntegrity
  import opened Book
  import opened BookRun
  import opened Window
  import opened Wallets
  import opened Lifecycle
  import opened Settlement
  import opened SettlementLaws
  import opened MesaInvariant
  import opened MesaClosing
  import opened Competition
  import opened CompetitionInvariant
  import opened Progress
  import opened Interleaving
  import opened Concurrency

  // ---- the rows do not depend on what is scored later ----

  lemma {:induction false} LatestStays(h: seq<History>, later: seq<History>, u: UserId, within: set<RoundNo>,
                                       key: RoundNo -> int)
    requires h <= later && forall k :: |h| <= k < |later| ==> later[k].round !in within
    ensures Latest(later, u, within, key) == Latest(h, u, within, key)
    decreases |later|
  {
    if |later| > |h| {
      LatestStays(h, later[..|later| - 1], u, within, key);
    } else {
      assert later == h;
    }
  }

  lemma {:induction false} CountedStays(b: Book, later: Book, reference: RoundNo, count: int)
    requires NumbersOk(b) && ClosingsOk(b) && NumbersOk(later) && ClosingsOk(later) && Extends(b, later)
    requires DueDate(b, reference, count).Some?
    ensures Counted(later, reference, DueDate(b, reference, count).value)
      == Counted(b, reference, DueDate(b, reference, count).value) != {}
  {
    DueDateStays(b, later, reference, count);
    CountedByDueDate(b, reference, count);
    CountedByDueDate(later, reference, count);
    FirstRoundsStay(b, later, reference, count);
  }

  lemma {:induction false} RowStays(b: Book, later: Book, p: Participant, startDate: Option<Time>, reference: RoundNo,
                                    end: Time)
    requires Extends(b, later) && UserOf(later, p.userId).createdAt == UserOf(b, p.userId).createdAt
    requires Counted(later, reference, end) == Counted(b, reference, end)
    requires SeenBaseline(later, reference, end) == SeenBaseline(b, reference, end)
    ensures ReferenceRow(later, p, startDate, reference, end) == ReferenceRow(b, p, startDate, reference, end)
  {
    LatestStays(b.history, later.history, p.userId, Counted(b, reference, end), BY_NUMBER);
    LatestStays(b.history, later.history, p.userId, SeenBaseline(b, reference, end), BY_NUMBER);
    LatestIsARow(b.history, p.userId, Counted(b, reference, end), BY_NUMBER);
  }

  lemma {:induction false} SeenStays(b: Book, later: Book, reference: RoundNo, end: Time)
    requires ClosingsOk(b) && ClosingsOk(later) && Extends(b, later) && HasStatus(b, reference, SCORED)
    requires Counted(later, reference, end) == Counted(b, reference, end) != {}
    ensures SeenBaseline(later, reference, end) == SeenBaseline(b, reference, end)
  {
    BaselineIsSeen(b, reference, end);
    BaselineIsSeen(later, reference, end);
    ScoredUpToStays(b, later, reference);
  }

  /** The accounts of the participants are there, and keep their age. */
  ghost predicate AccountsStay(b: Book, later: Book) {
    forall u :: u in b.users ==> u in later.users && later.users[u].createdAt == b.users[u].createdAt
  }

  ghost predicate HaveAccounts(b: Book, ps: seq<Participant>) {
    forall p :: p in ps ==> p.userId in b.users
  }

  /** A Mesa of rounds whose rounds are over. */
  ghost predicate RoundsOver(b: Book, m: Mesa) {
    && MesaOk(b, m) && m.milestones.initializationStatus == Some(READY) && m.settledAt.None?
    && m.terms.durationMode == ROUNDS && m.milestones.endDate.Some?
    && HaveAccounts(b, m.participants)
  }

  lemma {:induction false} RowsStay(b: Book, later: Book, m: Mesa, now: Time, after: Time)
    requires BookOk(b) && BookOk(later) && Extends(b, later) && AccountsStay(b, later) && RoundsOver(b, m)
    ensures ClosingRows(later, m, m.milestones.endDate, after) == ClosingRows(b, m, m.milestones.endDate, now)
  {
    BarrierUntilStart(b, m);
    var reference, end := m.milestones.referenceRound.value, m.milestones.endDate;
    assert EndOk(b, m);
    CountedStays(b, later, reference, m.terms.durationRounds.GetOr(0));
    SeenStays(b, later, reference, end.value);
    forall i | 0 <= i < |m.participants|
      ensures ClosingRows(later, m, end, after)[i] == ClosingRows(b, m, end, now)[i]
    {
      assert m.participants[i] in m.participants;
      RowStays(b, later, m.participants[i], m.terms.startDate, reference, end.value);
    }
  }

  /** Whoever settles it, and whenever: a Mesa whose rounds are over pays the same. */
  lemma {:induction false} DueSettlementStays(b: Book, later: Book, m: Mesa, activePro: set<UserId>, now: Time,
                                              after: Time)
    requires BookOk(b) && BookOk(later) && Extends(b, later) && AccountsStay(b, later) && RoundsOver(b, m)
    ensures Distribution(m.terms).Ok?
    ensures DueSettlement(later, m, m.milestones.endDate, activePro, after)
      == DueSettlement(b, m, m.milestones.endDate, activePro, now)
  {
    SoundDistribution(m.terms);
    RowsStay(b, later, m, now, after);
  }

  // ---- over a run ----

  lemma {:induction false} ScoredKeepsAccounts(b: Book, players: seq<UserId>, n: RoundNo, detail: UserId -> Points)
    ensures AccountsStay(b, ScoreTickets(b, players, n, detail))
  {
    if players != [] {
      ScoredKeepsAccounts(b, players[..|players| - 1], n, detail);
    }
  }

  lemma {:induction false} StepKeepsAccounts(b: Book, e: BookEvent)
    requires Allowed(b, e)
    ensures AccountsStay(b, Next(b, e))
  {
    if e.RoundScored? {
      ScoredKeepsAccounts(b, Players(b.tickets, e.number), e.number, e.detail);
    }
  }

  lemma {:induction false} RunKeepsAccounts(db: Db, events: seq<Event>, final: Db)
    requires Reaches(db, events, final)
    ensures AccountsStay(db.book, final.book)
    decreases |events|
  {
    if events != [] {
      if events[0].BookChanged? {
        StepKeepsAccounts(db.book, events[0].change);
      }
      RunKeepsAccounts(Apply(db, events[0]), events[1..], final);
    }
  }

  /** A Mesa that has started changes no more, but for its end, until it is settled. */
  lemma {:induction false} RunOnlyEnds(db: Db, events: seq<Event>, final: Db, id: MesaId)
    requires Inv(db) && Reaches(db, events, final) && id in db.mesas
    requires db.mesas[id].milestones.initializationStatus == Some(READY)
    ensures id in final.mesas && OnlyEnds(db.mesas[id], final.mesas[id])
    decreases |events|
  {
    if events == [] {
      NoneOnlyEnds(db.mesas, id);
    } else {
      var next := Apply(db, events[0]);
      StepKeepsInv(db, events[0]);
      StartedOnlyEnds(db, events[0], id);
      RunMovesOn(next, events[1..], final, id);
      if next.mesas[id].settledAt.None? {
        RunOnlyEnds(next, events[1..], final, id);
      }
      OnlyEndsTwice(db.mesas[id], next.mesas[id], final.mesas[id]);
    }
  }

  /** Over any run that has not settled it, such a Mesa stays as it is, and what it is to pay
      stays what it is -- for the same subscribers, if it is sponsored. */
  lemma {:induction false} SettlementIsFixed(db: Db, events: seq<Event>, final: Db, id: MesaId, activePro: set<UserId>)
    requires Inv(db) && Reaches(db, events, final) && id in db.mesas && RoundsOver(db.book, db.mesas[id])
    ensures id in final.mesas && Distribution(db.mesas[id].terms).Ok?
    ensures final.mesas[id].settledAt.None? ==>
      && final.mesas[id] == db.mesas[id]
      && DueSettlement(final.book, final.mesas[id], final.mesas[id].milestones.endDate, activePro, final.now)
        == DueSettlement(db.book, db.mesas[id], db.mesas[id].milestones.endDate, activePro, db.now)
  {
    RunOnlyEnds(db, events, final, id);
    RunKeepsInv(db, events, final);
    RunExtendsBook(db, events, final);
    RunKeepsAccounts(db, events, final);
    DueSettlementStays(db.book, final.book, db.mesas[id], activePro, db.now, final.now);
  }

  lemma {:induction false} NoSubscribersNeeded(t: Terms, gross: int, rows: seq<Ranked<Row>>, x: set<UserId>,
    y: set<UserId>)
    requires Distribution(t).Ok? && t.category != SPONSORED_FREE
    ensures SettlementOf(t, gross, rows, x) == SettlementOf(t, gross, rows, y)
  {}

  /** The rounds of the Mesa are over, it has no sponsor, and somebody is to be paid nothing. */
  ghost predicate Stuck(db: Db, id: MesaId) {
    && id in db.mesas && RoundsOver(db.book, db.mesas[id]) && db.mesas[id].terms.category != SPONSORED_FREE
    && Distribution(db.mesas[id].terms).Ok?
    && !Payable(DueSettlement(db.book, db.mesas[id], db.mesas[id].milestones.endDate, {}, db.now).eligible)
  }

  lemma {:induction false} NobodyPaidYet(db: Db, id: MesaId)
    requires Inv(db) && id in db.mesas && db.mesas[id].settledAt.None?
    ensures MesaOk(db.book, db.mesas[id]) && WalletsOk(db.wallets) && NobodyPaid(db.wallets, id)
  {
    assert !Settled(db.mesas, id);
  }

  lemma {:induction false} SubscribersDoNotMatter(b: Book, m: Mesa, now: Time, x: set<UserId>, y: set<UserId>)
    requires Distribution(m.terms).Ok? && m.terms.category != SPONSORED_FREE
    ensures DueSettlement(b, m, m.milestones.endDate, x, now) == DueSettlement(b, m, m.milestones.endDate, y, now)
  {
    NoSubscribersNeeded(m.terms, m.counters.grossCollected,
                        Ranking(ClosingRows(b, m, m.milestones.endDate, now), RowMetrics), x, y);
  }

  /** A Mesa whose rounds are over is stuck exactly when a closing that passes the guards is
      refused by the ledger. */
  lemma {:induction false} StuckExactly(db: Db, id: MesaId, m: Mesa, force: bool, activePro: set<UserId>)
    requires Inv(db) && id in db.mesas && m == db.mesas[id] && RoundsOver(db.book, m)
    requires m.terms.category != SPONSORED_FREE
    requires CloseProblem(m, m.milestones.endDate, force, db.now).None?
    ensures Stuck(db, id)
      <==> CloseMesa(db.book, id, m, m.milestones.endDate, force, db.wallets, activePro, db.now) == Err(PayoutRefused)
  {
    NobodyPaidYet(db, id);
    CloseExactly(db.book, id, m, m.milestones.endDate, force, db.wallets, activePro, db.now);
    GuardsPassExactly(db.book, m, m.milestones.endDate, force, db.now);
    SubscribersDoNotMatter(db.book, m, db.now, {}, activePro);
  }

  /** No closing on its end goes through, not even a forced one. */
  lemma {:induction false} StuckIsRefused(db: Db, id: MesaId, m: Mesa, force: bool, activePro: set<UserId>)
    requires Inv(db) && Stuck(db, id) && m == db.mesas[id]
    ensures CloseMesa(db.book, id, m, m.milestones.endDate, force, db.wallets, activePro, db.now).Err?
  {
    NobodyPaidYet(db, id);
    CloseExactly(db.book, id, m, m.milestones.endDate, force, db.wallets, activePro, db.now);
    SubscribersDoNotMatter(db.book, m, db.now, {}, activePro);
  }

  /** A closing of the Mesa that had read it before it got its end: it counts other rounds. */
  predicate ClosesBlindly(e: Event, id: MesaId) {
    e.MesaClosed? && e.mesa == id && e.end.None?
  }

  lemma {:induction false} ClosingSettlesIt(db: Db, e: Event)
    requires Inv(db) && Enabled(db, e) && e.MesaClosed?
    ensures e.mesa in Apply(db, e).mesas && Apply(db, e).mesas[e.mesa].settledAt.Some?
  {
    ClosedMesaFacts(db, e.mesa, e.end, e.force, e.activePro,
                    CloseMesa(db.book, e.mesa, db.mesas[e.mesa], e.end, e.force, db.wallets, e.activePro,
                              db.now).value);
  }

  lemma {:induction false} JoinSettlesNothing(db: Db, r: Request, found: Findings, inviteAt: Time, after: Db,
                                              id: MesaId)
    requires JoinDb(db, r, found, inviteAt) == Ok(after) && id in db.mesas
    ensures id in after.mesas && after.mesas[id].settledAt == db.mesas[id].settledAt
  {}

  lemma {:induction false} StageSettlesNothing(db: Db, k: MesaId, stage: Stage, id: MesaId)
    requires k in db.mesas && id in db.mesas
    ensures db.mesas[k := AtStage(db.book, db.mesas[k], stage, db.now)][id].settledAt == db.mesas[id].settledAt
  {}

  lemma {:induction false} OnlyClosingSettles(db: Db, e: Event, id: MesaId)
    requires Enabled(db, e) && id in db.mesas && db.mesas[id].settledAt.None? && !(e.MesaClosed? && e.mesa == id)
    ensures id in Apply(db, e).mesas && Apply(db, e).mesas[id].settledAt.None?
  {
    match e {
      case StageReached(k, stage) => StageSettlesNothing(db, k, stage, id);
      case JoinCommitted(r, found, inviteAt) =>
        JoinSettlesNothing(db, r, found, inviteAt, JoinDb(db, r, found, inviteAt).value, id);
      case _ =>
    }
  }

  lemma {:induction false} StuckIsNotClosed(db: Db, e: Event, id: MesaId)
    requires Inv(db) && Enabled(db, e) && Stuck(db, id) && !ClosesBlindly(e, id)
    ensures !(e.MesaClosed? && e.mesa == id)
  {
    if e.MesaClosed? && e.mesa == id {
      StuckIsRefused(db, id, db.mesas[id], e.force, e.activePro);
    }
  }

  lemma {:induction false} StuckStays(db: Db, next: Db, id: MesaId)
    requires Inv(db) && Inv(next) && Stuck(db, id) && id in next.mesas && next.mesas[id] == db.mesas[id]
    requires Extends(db.book, next.book) && AccountsStay(db.book, next.book)
    ensures Stuck(next, id)
  {
    DueSettlementStays(db.book, next.book, db.mesas[id], {}, db.now, next.now);
  }

  lemma {:induction false} StepKeepsTheBook(db: Db, e: Event)
    requires Inv(db) && Enabled(db, e)
    ensures Extends(db.book, Apply(db, e).book) && AccountsStay(db.book, Apply(db, e).book)
  {
    StepExtendsBook(db, e);
    if e.BookChanged? {
      StepKeepsAccounts(db.book, e.change);
    }
  }

  lemma {:induction false} StuckMesaStays(db: Db, e: Event, id: MesaId)
    requires Inv(db) && Enabled(db, e) && Stuck(db, id) && !ClosesBlindly(e, id)
    ensures id in Apply(db, e).mesas && Apply(db, e).mesas[id] == db.mesas[id]
  {
    StuckIsNotClosed(db, e, id);
    OnlyClosingSettles(db, e, id);
    StartedOnlyEnds(db, e, id);
  }

  lemma {:induction false} StuckStep(db: Db, e: Event, id: MesaId)
    requires Inv(db) && Enabled(db, e) && Stuck(db, id) && !ClosesBlindly(e, id)
    ensures Stuck(Apply(db, e), id) && Apply(db, e).mesas[id] == db.mesas[id]
  {
    StepKeepsInv(db, e);
    StepKeepsTheBook(db, e);
    StuckMesaStays(db, e, id);
    StuckStays(db, Apply(db, e), id);
  }

  lemma {:induction false} BlindlyClosed(db: Db, e: Event, events: seq<Event>, final: Db, id: MesaId)
    requires Inv(db) && Enabled(db, e) && ClosesBlindly(e, id) && Reaches(Apply(db, e), events, final)
    ensures id in final.mesas && final.mesas[id].settledAt.Some?
  {
    StepKeepsInv(db, e);
    ClosingSettlesIt(db, e);
    RunMovesOn(Apply(db, e), events, final, id);
  }

  /** So over any run: such a Mesa stays open, and exactly as it is, unless it is closed -- by
      force -- by somebody who had read it before it got its end. */
  lemma {:induction false} RefusedForEver(db: Db, events: seq<Event>, final: Db, id: MesaId)
    requires Inv(db) && Reaches(db, events, final) && Stuck(db, id)
    ensures id in final.mesas
    ensures final.mesas[id] == db.mesas[id] <==> forall e :: e in events ==> !ClosesBlindly(e, id)
    decreases |events|
  {
    if events != [] {
      assert events == [events[0]] + events[1..];
      if ClosesBlindly(events[0], id) {
        BlindlyClosed(db, events[0], events[1..], final, id);
      } else {
        StepKeepsInv(db, events[0]);
        StuckStep(db, events[0], id);
        RefusedForEver(Apply(db, events[0]), events[1..], final, id);
      }
    }
  }

  // ---- in the concurrent system ----

  /** No closing in flight has read the Mesa before it got its end. */
  ghost predicate NoneBlind(w: World, id: MesaId) {
    forall tx :: tx in w.closers && w.closers[tx].mesa == id ==> w.closers[tx].seen.milestones.endDate.Some?
  }

  lemma {:induction false} NobodyReadsBlindly(w: World, a: Action, id: MesaId)
    requires Possible(w, a) && id in w.db.mesas && w.db.mesas[id].milestones.endDate.Some? && NoneBlind(w, id)
    ensures NoneBlind(After(w, a), id)
    ensures Commits(w, a).Some? ==> !ClosesBlindly(Commits(w, a).value, id)
  {}

  lemma {:induction false} ActionStaysStuck(w: World, a: Action, id: MesaId)
    requires WorldOk(w) && Possible(w, a) && Stuck(w.db, id) && NoneBlind(w, id)
    ensures Stuck(After(w, a).db, id) && After(w, a).db.mesas[id] == w.db.mesas[id] && NoneBlind(After(w, a), id)
  {
    ActionRefines(w, a);
    NobodyReadsBlindly(w, a, id);
    if Commits(w, a).Some? {
      StuckStep(w.db, Commits(w, a).value, id);
    }
  }

  /** In every interleaving: once no closing in flight has read it before its end, such a Mesa
      stays open for ever, and exactly as it is. */
  lemma {:induction false} StaysOpenForEver(w: World, actions: seq<Action>, final: World, id: MesaId)
    requires WorldOk(w) && RunsTo(w, actions, final) && Stuck(w.db, id) && NoneBlind(w, id)
    ensures id in final.db.mesas && final.db.mesas[id] == w.db.mesas[id]
    decreases |actions|
  {
    if actions != [] {
      ActionKeepsWorld(w, actions[0]);
      ActionStaysStuck(w, actions[0], id);
      StaysOpenForEver(After(w, actions[0]), actions[1..], final, id);
    }
  }

  // ---- the size of the prize ----

  lemma {:induction false} EligiblePays(t: Terms, payouts: seq<Payout>, activePro: set<UserId>)
    requires Payable(payouts)
    ensures Payable(Split(t, payouts, activePro).eligible)
  {
    SplitLaws(t, payouts, activePro);
  }

  lemma {:induction false} NothingToPay(d: seq<Item>, rows: seq<PrizeRow>)
    ensures Payouts(0, d, rows) == []
  {}

  /** With a hundred units of prize for every participant, passing the guards is enough. */
  lemma {:induction false} LargePrizeCloses(b: Book, id: MesaId, m: Mesa, end: Option<Time>, force: bool,
                                            wallets: map<UserId, Wallet>, activePro: set<UserId>, now: Time)
    requires MesaOk(b, m) && WalletsOk(wallets) && NobodyPaid(wallets, id)
    requires CloseProblem(m, end, force, now).None?
    requires m.terms.category == FREE
      || ExpectedTotals(m.terms, m.counters.grossCollected).prizePool >= 100 * |m.participants|
    ensures CloseMesa(b, id, m, end, force, wallets, activePro, now).Ok?
  {
    CloseExactly(b, id, m, end, force, wallets, activePro, now);
    GuardsPassExactly(b, m, end, force, now);
    CloseSettles(b, id, m, end, force, wallets, activePro, now);
    var rows := PrizeRows(Ranking(ClosingRows(b, m, end, now), RowMetrics), RowMetrics);
    var (pool, d) := (ExpectedTotals(m.terms, m.counters.grossCollected).prizePool, Distribution(m.terms).value);
    SoundDistribution(m.terms);
    RankingHasCompetitionPositions(ClosingRows(b, m, end, now), RowMetrics);
    if m.terms.category == FREE {
      NothingToPay(d, rows);
    } else {
      LargePoolPays(pool, d, rows);
    }
    EligiblePays(m.terms, Payouts(pool, d, rows), activePro);
  }

  /** A Mesa without a sponsor with fewer units of prize than participants in paid positions
      cannot be closed, not even by force. */
  lemma {:induction false} SmallPrizeStaysOpen(b: Book, id: MesaId, m: Mesa, end: Option<Time>, force: bool,
                                               wallets: map<UserId, Wallet>, activePro: set<UserId>, now: Time,
                                               rows: seq<PrizeRow>)
    requires MesaOk(b, m) && WalletsOk(wallets) && NobodyPaid(wallets, id) && m.terms.category == PAID
    requires rows == PrizeRows(Ranking(ClosingRows(b, m, end, now), RowMetrics), RowMetrics)
    requires Distribution(m.terms).Ok?
    requires 0 < ExpectedTotals(m.terms, m.counters.grossCollected).prizePool
      < |Weighted(Distribution(m.terms).value, rows)|
    ensures CloseMesa(b, id, m, end, force, wallets, activePro, now).Err?
  {
    CloseExactly(b, id, m, end, force, wallets, activePro, now);
    SoundDistribution(m.terms);
    RankingHasCompetitionPositions(ClosingRows(b, m, end, now), RowMetrics);
    NobodyWeighted(Distribution(m.terms).value, rows);
    TooSmallPool(ExpectedTotals(m.terms, m.counters.grossCollected).prizePool, Distribution(m.terms).value, rows);
  }

  lemma {:induction false} NobodyWeighted(d: seq<Item>, rows: seq<PrizeRow>)
    ensures rows == [] ==> Weighted(d, rows) == []
  {}

  lemma {:induction false} DueToTwo(t: Terms, gross: int, ranked: seq<Ranked<Row>>, activePro: set<UserId>)
    requires t.category == PAID && t.prizeDistribution == AsJson(NINETY_NINE_TO_ONE) && gross == 2
    requires |ranked| == 2 && ranked[0].position == 1 && ranked[1].position == 2
    ensures Distribution(t).Ok? && !Payable(SettlementOf(t, gross, ranked, activePro).eligible)
  {
    NinetyNineToOne();
    TwoPrizeRows(ranked);
    TwoUnitsDue(t, gross, ranked, activePro, Payouts(2, NINETY_NINE_TO_ONE, PrizeRows(ranked, RowMetrics)));
  }

  lemma {:induction false} TwoPrizeRows(ranked: seq<Ranked<Row>>)
    requires |ranked| == 2 && ranked[0].position == 1 && ranked[1].position == 2
    ensures var payouts := Payouts(2, NINETY_NINE_TO_ONE, PrizeRows(ranked, RowMetrics));
      |payouts| == 2 && payouts[1].amount == 0
  {
    var rows := PrizeRows(ranked, RowMetrics);
    SecondGetsNothing(rows[0].userId, rows[1].userId);
    assert rows == [PrizeRow(rows[0].userId, 1), PrizeRow(rows[1].userId, 2)];
  }

  lemma {:induction false} TwoUnitsDue(t: Terms, gross: int, ranked: seq<Ranked<Row>>, activePro: set<UserId>,
                                       payouts: seq<Payout>)
    requires t.category == PAID && Distribution(t) == Ok(NINETY_NINE_TO_ONE) && gross == 2
    requires payouts == Payouts(2, NINETY_NINE_TO_ONE, PrizeRows(ranked, RowMetrics))
    requires |payouts| == 2 && payouts[1].amount == 0
    ensures !Payable(SettlementOf(t, gross, ranked, activePro).eligible)
  {
    var eligible := SettlementOf(t, gross, ranked, activePro).eligible;
    assert eligible == payouts && eligible[1] in eligible;
  }

  /** A Mesa of two seats that cost 1 each, with the accepted distribution 99 to 1, cannot be
      closed unless its participants tie ... */
  lemma {:induction false} NinetyNineToOneStaysOpen(b: Book, id: MesaId, m: Mesa, end: Option<Time>, force: bool,
                                                    wallets: map<UserId, Wallet>, activePro: set<UserId>, now: Time)
    requires MesaOk(b, m) && WalletsOk(wallets) && NobodyPaid(wallets, id) && m.terms.category == PAID
    requires AccessCost(m.terms) == 1 && |m.participants| == 2
    requires m.terms.prizeDistribution == AsJson(NINETY_NINE_TO_ONE)
    requires Ranking(ClosingRows(b, m, end, now), RowMetrics)[1].position == 2
    ensures CloseMesa(b, id, m, end, force, wallets, activePro, now).Err?
  {
    CloseExactly(b, id, m, end, force, wallets, activePro, now);
    EntryRevenueIsProduct(m.terms, 2);
    var ranked := Ranking(ClosingRows(b, m, end, now), RowMetrics);
    RankingHasCompetitionPositions(ClosingRows(b, m, end, now), RowMetrics);
    assert PrizeRows(ranked, RowMetrics)[0].position == ranked[0].position;
    DueToTwo(m.terms, m.counters.grossCollected, ranked, activePro);
  }

  lemma {:induction false} NothingToTrim(s: string)
    requires s != "" && !Whitespace(s[0]) && !Whitespace(s[|s| - 1])
    ensures Trim(s) == s
  {}

  /** ... and such a Mesa can be created. */
  lemma {:induction false} NinetyNineToOneIsCreated(u: UserId) returns (input: CreateInput, m: Mesa)
    ensures CreateMesa(input, CreateContext(0, 0, true, true)) == Ok(m)
    ensures m.terms.category == PAID && AccessCost(m.terms) == 1 && m.terms.maxParticipants == Some(2)
    ensures m.terms.durationMode == ROUNDS && m.terms.prizeDistribution == AsJson(NINETY_NINE_TO_ONE)
  {
    NinetyNineToOne();
    var terms := TermsInput(Some(PAID), Some(1), None, None, None, Some(2), Some(CAPACITY));
    input := CreateInput(u, false, "Mesa", "99% and 1%", terms, None, Some(ROUNDS), Some(1),
                         AsJson(NINETY_NINE_TO_ONE), 0, None, None, false);
    NothingToTrim(input.name);
    NothingToTrim(input.description);
    assert CreationProblem(input, CreateContext(0, 0, true, true), CategoryTerms(PAID, 1, 0, Some(2), CAPACITY)).None?;
    m := CreateMesa(input, CreateContext(0, 0, true, true)).value;
  }
}
