/** Money is conserved: it enters and leaves only through the administration and the sponsors. */
module Conservation {
  import opened Collections
  import opened Tiebreak
  import opened Prize
  import opened Domain
  import opened MesaRules
  import opened MesaIntegrity
  import opened Book
  import opened BookRun
  import opened Window
  import opened Wallets
  import opened Join
  import opened Settlement
  import opened SettlementLaws
  import opened MesaInvariant
  import opened MesaClosing
  import opened Competition
  import opened CompetitionInvariant

  /** What a Mesa holds: all it has collected until it is settled, then the fee and the
      payouts it has withheld. */
  function HeldFor(m: Mesa, settlements: map<MesaId, Settlement>, id: MesaId): int {
    if m.settledAt.None? then m.counters.grossCollected
    else m.counters.pools.platformFee + if id in settlements then PaidOut(settlements[id].withheld) else 0
  }

  ghost function Funds(mesas: map<MesaId, Mesa>, settlements: map<MesaId, Settlement>): map<MesaId, int> {
    map id | id in mesas :: HeldFor(mesas[id], settlements, id)
  }

  /** Everything there is, in wallets and in Mesas. */
  ghost function Held(db: Db): int {
    Total(Balances(db.wallets)) + Total(Funds(db.mesas, db.settlements))
  }

  /** What an event brings in from outside. */
  ghost function Inflow(db: Db, e: Event): int
    requires Enabled(db, e)
  {
    match e
    case WalletMoved(_, movement) => Signed(movement)
    case MesaClosed(id, _, _, _) =>
      if db.mesas[id].terms.category == SPONSORED_FREE then db.mesas[id].terms.sponsorPrizePool else 0
    case _ => 0
  }

  ghost function InflowOver(db: Db, events: seq<Event>, final: Db): int
    requires Reaches(db, events, final)
    decreases |events|
  {
    if events == [] then 0 else Inflow(db, events[0]) + InflowOver(Apply(db, events[0]), events[1..], final)
  }

  lemma {:induction false} FundsChange(mesas: map<MesaId, Mesa>, settlements: map<MesaId, Settlement>, id: MesaId,
                                       m: Mesa,
                                       after: map<MesaId, Settlement>)
    requires forall k :: k != id ==> (k in after <==> k in settlements) && (k in after ==> after[k] == settlements[k])
    ensures Total(Funds(mesas[id := m], after)) == Total(Funds(mesas, settlements)) + HeldFor(m, after, id)
      - if id in mesas then HeldFor(mesas[id], settlements, id) else 0
  {
    TotalUpdate(Funds(mesas, settlements), id, HeldFor(m, after, id));
    assert Funds(mesas[id := m], after) == Funds(mesas, settlements)[id := HeldFor(m, after, id)];
  }

  lemma {:induction false} MesaChangeHolds(db: Db, id: MesaId, m: Mesa)
    requires id in db.mesas && m.settledAt == db.mesas[id].settledAt
    requires m.counters == db.mesas[id].counters
      || (m.settledAt.None? && m.counters.grossCollected == db.mesas[id].counters.grossCollected)
    ensures Held(WithMesa(db, id, m)) == Held(db)
  {
    FundsChange(db.mesas, db.settlements, id, m, db.settlements);
  }

  lemma {:induction false} NewMesaHolds(db: Db, id: MesaId, m: Mesa)
    requires id !in db.mesas && m.settledAt.None? && m.counters.grossCollected == 0
    ensures Held(WithMesa(db, id, m)) == Held(db)
  {
    FundsChange(db.mesas, db.settlements, id, m, db.settlements);
  }

  lemma {:induction false} NothingCollectedYet(b: Book, m: Mesa)
    requires MesaOk(b, m) && m.participants == []
    ensures m.counters.grossCollected == 0
  {}

  lemma {:induction false} CreationHolds(db: Db, id: MesaId, input: CreateInput, ctx: CreateContext, m: Mesa)
    requires id !in db.mesas && CreateMesa(input, ctx) == Ok(m)
    ensures Held(WithMesa(db, id, m)) == Held(db)
  {
    CreatedMesaIsOk(db.book, input, ctx, m);
    NothingCollectedYet(db.book, m);
    StatusOfStage(db.book, m);
    NewMesaHolds(db, id, m);
  }

  lemma {:induction false} JoinCollects(m: Mesa, u: UserId, scoreInitial: int, approvedAt: Time,
                                        open: Option<RoundNo>, joined: Mesa)
    requires Joined(m, u, scoreInitial, approvedAt, open) == Ok(joined)
    ensures joined.counters.grossCollected
      == m.counters.grossCollected + if HasPaidEntry(m.terms) then AccessCost(m.terms) else 0
    ensures joined.settledAt == m.settledAt
  {}

  lemma {:induction false} OpenIsUnsettled(b: Book, m: Mesa)
    requires MesaOk(b, m) && m.milestones.registrationClosedAt.None?
    ensures m.settledAt.None?
  {}

  /** A join takes from the wallet what the Mesa collects. */
  lemma {:induction false} JoinHolds(db: Db, r: Request, found: Findings, inviteAt: Time)
    requires Inv(db) && JoinEnabled(db, r, found, inviteAt)
    ensures Held(JoinDb(db, r, found, inviteAt).value) == Held(db)
  {
    var m := Opened(db.mesas[r.mesa], r.publication);
    var joined := Joined(m, r.userId, found.scoreInitial, found.approvedAt, found.open).value;
    OpenIsUnsettled(db.book, db.mesas[r.mesa]);
    JoinCollects(m, r.userId, found.scoreInitial, found.approvedAt, found.open, joined);
    EntryMovesWallets(db, r.mesa, m.terms, r.userId, EntryPaid(db, r.mesa, m.terms, r.userId).value);
    FundsChange(db.mesas, db.settlements, r.mesa, joined, db.settlements);
  }

  /** Fee and prize together are what was collected, and what the sponsor adds. */
  lemma {:induction false} TotalsAddUp(t: Terms, gross: int)
    requires t.category == FREE ==> gross == 0
    ensures ExpectedTotals(t, gross).platformFee + ExpectedTotals(t, gross).prizePool
      == gross + if t.category == SPONSORED_FREE then t.sponsorPrizePool else 0
  {}

  lemma {:induction false} FreeCollectsNothing(b: Book, m: Mesa)
    requires MesaOk(b, m) && m.terms.category == FREE
    ensures m.counters.grossCollected == 0
  {
    EntryRevenueIsProduct(m.terms, |m.participants|);
  }

  lemma {:induction false} CloseHolds(db: Db, id: MesaId, end: Option<Time>, force: bool, activePro: set<UserId>,
                                      c: Closing)
    requires Inv(db) && id in db.mesas
    requires CloseMesa(db.book, id, db.mesas[id], end, force, db.wallets, activePro, db.now) == Ok(c)
    ensures Held(AfterClosing(db, id, c))
      == Held(db) + if db.mesas[id].terms.category == SPONSORED_FREE then db.mesas[id].terms.sponsorPrizePool else 0
  {
    ClosableIsUnpaid(db, id, end, force);
    ClosedMesa(db.book, id, db.mesas[id], end, force, db.wallets, activePro, db.now, c);
    ClosedMoney(db.book, id, db.mesas[id], end, force, db.wallets, activePro, db.now, c);
    if db.mesas[id].terms.category == FREE {
      FreeCollectsNothing(db.book, db.mesas[id]);
    }
    TotalsAddUp(db.mesas[id].terms, db.mesas[id].counters.grossCollected);
    FundsChange(db.mesas, db.settlements, id, c.mesa, db.settlements[id := c.settlement.value]);
  }

  lemma {:induction false} WalletHolds(db: Db, u: UserId, e: LedgerEntry)
    ensures Held(WithWallet(db, u, Append(WalletOf(db.wallets, u), e))) == Held(db) + Signed(e)
  {
    WalletChanges(db.wallets, u, Append(WalletOf(db.wallets, u), e));
  }

  /** Every event changes what there is by exactly what it brings in. */
  lemma {:induction false} StepConserves(db: Db, e: Event)
    requires Inv(db) && Enabled(db, e)
    ensures Held(Apply(db, e)) == Held(db) + Inflow(db, e)
  {
    match e {
      case Ticked(_) =>
      case BookChanged(_) =>
      case InviteCreated(_, _, _, _) =>
      case MesaCreated(id, input, ctx) => CreationHolds(db, id, input, ctx, CreateMesa(input, ctx).value);
      case StageReached(id, stage) =>
        StageIsTheSameToOthers(db.book, db.mesas[id], stage, db.now);
        MesaChangeHolds(db, id, AtStage(db.book, db.mesas[id], stage, db.now));
      case JoinCommitted(r, found, inviteAt) => JoinHolds(db, r, found, inviteAt);
      case MesaClosed(id, end, force, activePro) =>
        CloseHolds(db, id, end, force, activePro,
                   CloseMesa(db.book, id, db.mesas[id], end, force, db.wallets, activePro, db.now).value);
      case WalletMoved(u, movement) => WalletHolds(db, u, movement);
    }
  }

  /** Over any run, what there is has grown by what came in. */
  lemma {:induction false} RunConserves(db: Db, events: seq<Event>, final: Db)
    requires Inv(db) && Reaches(db, events, final)
    ensures Held(final) == Held(db) + InflowOver(db, events, final)
    decreases |events|
  {
    if events != [] {
      StepKeepsInv(db, events[0]);
      StepConserves(db, events[0]);
      RunConserves(Apply(db, events[0]), events[1..], final);
    }
  }
}
