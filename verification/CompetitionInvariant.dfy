/** What the committed database keeps, whatever happens. */
module CompetitionInvariant {
  import opened Collections
  import opened Tiebreak
  import opened Prize
  import opened Domain
  import opened MesaRules
  import opened Book
  import opened BookRun
  import opened Window
  import opened Wallets
  import opened Join
  import opened Lifecycle
  import opened Settlement
  import opened SettlementLaws
  import opened MesaInvariant
  import opened MesaClosing
  import opened Competition

  // ---- the invariant ----

  ghost predicate MesasOk(book: Book, mesas: map<MesaId, Mesa>) {
    forall id :: id in mesas ==> MesaOk(book, mesas[id])
  }

  /** The user takes part in a Mesa whose entry is paid. */
  predicate PaysFor(mesas: map<MesaId, Mesa>, id: MesaId, u: UserId) {
    id in mesas && HasPaidEntry(mesas[id].terms) && Takes(mesas[id].participants, u)
  }

  /** Exactly the participants of paid Mesas have been debited for them, once. */
  ghost predicate EntriesOk(wallets: map<UserId, Wallet>, mesas: map<MesaId, Mesa>) {
    forall u, id :: KeyCount(WalletOf(wallets, u).ledger, EntryKey(id)) == if PaysFor(mesas, id, u) then 1 else 0
  }

  predicate Settled(mesas: map<MesaId, Mesa>, id: MesaId) {
    id in mesas && mesas[id].settledAt.Some?
  }

  /** Payouts exist only for settled Mesas. */
  ghost predicate PayoutsOk(wallets: map<UserId, Wallet>, mesas: map<MesaId, Mesa>) {
    forall id :: !Settled(mesas, id) ==> NobodyPaid(wallets, id)
  }

  ghost predicate SettlementsOk(settlements: map<MesaId, Settlement>, mesas: map<MesaId, Mesa>) {
    forall id :: id in settlements <==> Settled(mesas, id)
  }

  /** An invite has been used exactly by the users that joined through it, within its limit. */
  ghost predicate InviteOk(i: Invite, mesas: map<MesaId, Mesa>) {
    && i.mesa in mesas && i.usedCount == |i.usedBy| && Distinct(i.usedBy)
    && (i.maxUses.Some? ==> i.usedCount <= i.maxUses.value)
    && forall u :: u in i.usedBy ==> Takes(mesas[i.mesa].participants, u)
  }

  ghost predicate InvitesOk(invites: map<InviteId, Invite>, mesas: map<MesaId, Mesa>) {
    forall i :: i in invites ==> InviteOk(invites[i], mesas)
  }

  /** Everything together; taken apart by a match, which keeps the verifier from splitting it
      wherever it is asked for. */
  ghost predicate Inv(db: Db) {
    match db
    case Db(_, book, wallets, mesas, invites, settlements) =>
      && BookOk(book) && MesasOk(book, mesas) && WalletsOk(wallets) && EntriesOk(wallets, mesas)
      && PayoutsOk(wallets, mesas) && SettlementsOk(settlements, mesas) && InvitesOk(invites, mesas)
  }

  // ---- changes to one Mesa that concern nobody else ----

  ghost predicate SameUsers(ps: seq<Participant>, qs: seq<Participant>) {
    |ps| == |qs| && forall i :: 0 <= i < |ps| ==> ps[i].userId == qs[i].userId
  }

  lemma {:induction false} SameUsersTake(ps: seq<Participant>, qs: seq<Participant>, u: UserId)
    requires SameUsers(ps, qs)
    ensures Takes(ps, u) == Takes(qs, u)
  {}

  /** What entries, payouts and invites look at. */
  ghost predicate SameToOthers(m: Mesa, after: Mesa) {
    (after.terms == m.terms || m.participants == []) && SameUsers(m.participants, after.participants)
  }

  lemma {:induction false} OthersUnmoved(mesas: map<MesaId, Mesa>, id: MesaId, m: Mesa, wallets: map<UserId, Wallet>,
                                         invites: map<InviteId, Invite>)
    requires id in mesas && SameToOthers(mesas[id], m)
    ensures EntriesOk(wallets, mesas) ==> EntriesOk(wallets, mesas[id := m])
    ensures InvitesOk(invites, mesas) ==> InvitesOk(invites, mesas[id := m])
  {
    forall u | true ensures Takes(mesas[id].participants, u) == Takes(m.participants, u) {
      SameUsersTake(mesas[id].participants, m.participants, u);
    }
    if InvitesOk(invites, mesas) {
      forall i | i in invites ensures InviteOk(invites[i], mesas[id := m]) {
        assert InviteOk(invites[i], mesas);
      }
    }
  }

  /** A change of stage: the Mesa stays in order and its participants and money stay. */
  lemma {:induction false} StageChanges(db: Db, id: MesaId, m: Mesa)
    requires Inv(db) && id in db.mesas && MesaOk(db.book, m) && SameToOthers(db.mesas[id], m)
    requires m.settledAt == db.mesas[id].settledAt
    ensures Inv(WithMesa(db, id, m))
  {
    OthersUnmoved(db.mesas, id, m, db.wallets, db.invites);
  }

  lemma {:induction false} KeylessMovement(wallets: map<UserId, Wallet>, u: UserId, e: LedgerEntry)
    requires e.key.None?
    ensures forall v, key: Key ::
      KeyCount(WalletOf(wallets[u := Append(WalletOf(wallets, u), e)], v).ledger, key)
        == KeyCount(WalletOf(wallets, v).ledger, key)
  {
    forall v, key: Key | true
      ensures KeyCount(WalletOf(wallets[u := Append(WalletOf(wallets, u), e)], v).ledger, key)
        == KeyCount(WalletOf(wallets, v).ledger, key)
    {
      AppendCounts(WalletOf(wallets, u), e, key);
    }
  }

  lemma {:induction false} MovedWalletsOk(wallets: map<UserId, Wallet>, u: UserId, e: LedgerEntry)
    requires WalletsOk(wallets) && e.amount > 0 && e.key.None?
    requires e.kind == DEBIT ==> u in wallets && wallets[u].balance >= e.amount
    ensures WalletsOk(wallets[u := Append(WalletOf(wallets, u), e)])
  {
    var w := WalletOf(wallets, u);
    assert WalletOk(w);
    AppendKeepsWallet(w, e);
  }

  /** A movement without a key that leaves the wallet in order. */
  lemma {:induction false} MovementKeepsInv(db: Db, u: UserId, e: LedgerEntry)
    requires Inv(db) && MovementAllowed(db, u, e)
    ensures Inv(WithWallet(db, u, Append(WalletOf(db.wallets, u), e)))
  {
    MovedWalletsOk(db.wallets, u, e);
    KeylessMovement(db.wallets, u, e);
    SameKeys(db.wallets, db.wallets[u := Append(WalletOf(db.wallets, u), e)], db.mesas);
  }

  lemma {:induction false} SameKeys(wallets: map<UserId, Wallet>, after: map<UserId, Wallet>, mesas: map<MesaId, Mesa>)
    requires forall u, key: Key ::
      KeyCount(WalletOf(after, u).ledger, key) == KeyCount(WalletOf(wallets, u).ledger, key)
    ensures EntriesOk(wallets, mesas) ==> EntriesOk(after, mesas)
    ensures PayoutsOk(wallets, mesas) ==> PayoutsOk(after, mesas)
  {
    forall id | NobodyPaid(wallets, id) ensures NobodyPaid(after, id) {
      forall u | true ensures Unpaid(after, id, u) {
        assert Unpaid(wallets, id, u);
      }
    }
  }

  // ---- joining ----

  lemma {:induction false} JoinedTakes(m: Mesa, u: UserId, scoreInitial: int, approvedAt: Time, open: Option<RoundNo>,
                                       after: Mesa, v: UserId)
    requires Seated(m) && Joined(m, u, scoreInitial, approvedAt, open) == Ok(after)
    ensures after.terms == m.terms && after.settledAt == m.settledAt && after.status == m.status
    ensures Takes(after.participants, v) <==> Takes(m.participants, v) || v == u
    ensures !Takes(m.participants, u)
  {}

  /** One more participant: the Mesa has the same terms and exactly one new user. */
  ghost predicate OneMore(m: Mesa, after: Mesa, u: UserId) {
    && after.terms == m.terms && after.settledAt == m.settledAt && !Takes(m.participants, u)
    && forall v :: Takes(after.participants, v) <==> Takes(m.participants, v) || v == u
  }

  lemma {:induction false} OneMoreEntry(wallets: map<UserId, Wallet>, after: map<UserId, Wallet>, mesas: map<MesaId,
                                        Mesa>,
                                        id: MesaId, m: Mesa, u: UserId)
    requires EntriesOk(wallets, mesas) && id in mesas && OneMore(mesas[id], m, u)
    requires forall v, key: Key ::
      KeyCount(WalletOf(after, v).ledger, key) == KeyCount(WalletOf(wallets, v).ledger, key)
        + if v == u && key == EntryKey(id) && HasPaidEntry(m.terms) then 1 else 0
    ensures EntriesOk(after, mesas[id := m])
    ensures PayoutsOk(wallets, mesas) ==> PayoutsOk(after, mesas[id := m])
  {
    forall v, k | true
      ensures KeyCount(WalletOf(after, v).ledger, EntryKey(k)) == if PaysFor(mesas[id := m], k, v) then 1 else 0 {
      assert KeyCount(WalletOf(wallets, v).ledger, EntryKey(k)) == if PaysFor(mesas, k, v) then 1 else 0;
    }
    forall k | NobodyPaid(wallets, k) ensures NobodyPaid(after, k) {
      forall v | true ensures Unpaid(after, k, v) {
        assert Unpaid(wallets, k, v);
      }
    }
  }

  lemma {:induction false} EntryMovesWallets(db: Db, id: MesaId, t: Terms, u: UserId, after: map<UserId, Wallet>)
    requires WalletsOk(db.wallets) && EntryPaid(db, id, t, u) == Ok(after)
    ensures WalletsOk(after)
    ensures forall v, key: Key ::
      KeyCount(WalletOf(after, v).ledger, key) == KeyCount(WalletOf(db.wallets, v).ledger, key)
        + if v == u && key == EntryKey(id) && HasPaidEntry(t) then 1 else 0
    ensures Total(Balances(after)) == Total(Balances(db.wallets)) - if HasPaidEntry(t) then AccessCost(t) else 0
  {
    if HasPaidEntry(t) {
      var w, paid := db.wallets[u], after[u];
      DebitKeepsWallet(w, AccessCost(t), Some(EntryKey(id)), paid);
      WalletChanges(db.wallets, u, paid);
      forall key: Key | true
        ensures KeyCount(paid.ledger, key) == KeyCount(w.ledger, key) + if key == EntryKey(id) then 1 else 0 {
        KeyedMovesOnce(w, AccessCost(t), EntryKey(id), key, paid);
      }
    }
  }

  lemma {:induction false} InvitesFollow(db: Db, r: Request, at: Time, m: Mesa, after: map<InviteId, Invite>)
    requires InvitesOk(db.invites, db.mesas) && r.mesa in db.mesas && OneMore(db.mesas[r.mesa], m, r.userId)
    requires InviteUsed(db, r, at) == Ok(after)
    requires r.invite.Some? ==> r.invite.value in db.invites && db.invites[r.invite.value].mesa == r.mesa
    ensures InvitesOk(after, db.mesas[r.mesa := m])
  {}

  /** What a join makes of the Mesa it finds. */
  lemma {:induction false} JoinedMesa(db: Db, r: Request, found: Findings, inviteAt: Time, joined: Mesa)
    requires Inv(db) && JoinEnabled(db, r, found, inviteAt)
    requires Joined(Opened(db.mesas[r.mesa], r.publication), r.userId, found.scoreInitial, found.approvedAt,
      found.open) == Ok(joined)
    ensures MesaOk(db.book, joined) && OneMore(db.mesas[r.mesa], joined, r.userId)
  {
    var m := Opened(db.mesas[r.mesa], r.publication);
    if r.publication {
      PublishedMesaIsOk(db.book, db.mesas[r.mesa]);
    }
    JoinedMesaIsOk(db.book, m, r.userId, found.scoreInitial, found.approvedAt, found.open, joined);
    forall v | true ensures Takes(joined.participants, v) <==> Takes(m.participants, v) || v == r.userId {
      JoinedTakes(m, r.userId, found.scoreInitial, found.approvedAt, found.open, joined, v);
    }
    JoinedTakes(m, r.userId, found.scoreInitial, found.approvedAt, found.open, joined, r.userId);
  }

  lemma {:induction false} JoinKeepsInv(db: Db, r: Request, found: Findings, inviteAt: Time)
    requires Inv(db) && JoinEnabled(db, r, found, inviteAt)
    ensures Inv(JoinDb(db, r, found, inviteAt).value)
  {
    var m := Opened(db.mesas[r.mesa], r.publication);
    var joined := Joined(m, r.userId, found.scoreInitial, found.approvedAt, found.open).value;
    JoinedMesa(db, r, found, inviteAt, joined);
    EntryMovesWallets(db, r.mesa, m.terms, r.userId, EntryPaid(db, r.mesa, m.terms, r.userId).value);
    OneMoreEntry(db.wallets, EntryPaid(db, r.mesa, m.terms, r.userId).value, db.mesas, r.mesa, joined, r.userId);
    InvitesFollow(db, r, inviteAt, joined, InviteUsed(db, r, inviteAt).value);
  }

  // ---- closing ----

  lemma {:induction false} CreditedKeys(wallets: map<UserId, Wallet>, after: map<UserId, Wallet>, mesas: map<MesaId,
                                        Mesa>,
                                        id: MesaId, m: Mesa)
    requires OnlyCredited(wallets, after, id) && id in mesas && SameToOthers(mesas[id], m) && m.settledAt.Some?
    requires EntriesOk(wallets, mesas) && PayoutsOk(wallets, mesas)
    ensures EntriesOk(after, mesas[id := m]) && PayoutsOk(after, mesas[id := m])
  {
    OthersUnmoved(mesas, id, m, wallets, map[]);
    forall u, k | true
      ensures KeyCount(WalletOf(after, u).ledger, EntryKey(k)) == if PaysFor(mesas[id := m], k, u) then 1 else 0 {
      assert EntryKey(k) != PayoutKey(id);
    }
    forall k | !Settled(mesas[id := m], k) ensures NobodyPaid(after, k) {
      assert NobodyPaid(wallets, k);
      forall u | true ensures Unpaid(after, k, u) {
        assert Unpaid(wallets, k, u) && PayoutKey(k) != PayoutKey(id);
      }
    }
  }

  lemma {:induction false} FrozenAreTheSame(ps: seq<Participant>, rows: seq<Ranked<Row>>)
    ensures SameUsers(ps, Frozen(ps, rows))
  {}

  /** A Mesa that closes was not settled: nobody had been paid. */
  lemma {:induction false} ClosableIsUnpaid(db: Db, id: MesaId, end: Option<Time>, force: bool)
    requires Inv(db) && id in db.mesas && CloseProblem(db.mesas[id], end, force, db.now).None?
    ensures !Settled(db.mesas, id) && NobodyPaid(db.wallets, id)
  {
    StatusOfStage(db.book, db.mesas[id]);
  }

  lemma {:induction false} ClosedDbIsOk(db: Db, id: MesaId, c: Closing)
    requires Inv(db) && id in db.mesas && MesaOk(db.book, c.mesa) && SameToOthers(db.mesas[id], c.mesa)
    requires c.mesa.settledAt.Some? && c.settlement.Some?
    requires WalletsOk(c.wallets) && OnlyCredited(db.wallets, c.wallets, id)
    ensures Inv(AfterClosing(db, id, c))
  {
    CreditedKeys(db.wallets, c.wallets, db.mesas, id, c.mesa);
    OthersUnmoved(db.mesas, id, c.mesa, db.wallets, db.invites);
  }

  lemma {:induction false} ClosedMesaFacts(db: Db, id: MesaId, end: Option<Time>, force: bool, activePro: set<UserId>,
                                           c: Closing)
    requires Inv(db) && id in db.mesas
    requires CloseMesa(db.book, id, db.mesas[id], end, force, db.wallets, activePro, db.now) == Ok(c)
    ensures MesaOk(db.book, c.mesa) && SameToOthers(db.mesas[id], c.mesa)
    ensures c.mesa.settledAt.Some? && c.settlement.Some?
    ensures WalletsOk(c.wallets) && OnlyCredited(db.wallets, c.wallets, id)
    ensures c.mesa.milestones == db.mesas[id].milestones && c.mesa.terms == db.mesas[id].terms
  {
    ClosableIsUnpaid(db, id, end, force);
    ClosedMesa(db.book, id, db.mesas[id], end, force, db.wallets, activePro, db.now, c);
    ClosedMoney(db.book, id, db.mesas[id], end, force, db.wallets, activePro, db.now, c);
    FrozenAreTheSame(db.mesas[id].participants, Ranking(ClosingRows(db.book, db.mesas[id], end, db.now), RowMetrics));
  }

  lemma {:induction false} CloseKeepsInv(db: Db, id: MesaId, end: Option<Time>, force: bool, activePro: set<UserId>,
                                         c: Closing)
    requires Inv(db) && id in db.mesas
    requires CloseMesa(db.book, id, db.mesas[id], end, force, db.wallets, activePro, db.now) == Ok(c)
    ensures Inv(AfterClosing(db, id, c))
  {
    ClosedMesaFacts(db, id, end, force, activePro, c);
    ClosedDbIsOk(db, id, c);
  }

  // ---- the other events ----

  lemma {:induction false} NewMesaConcernsNobody(mesas: map<MesaId, Mesa>, id: MesaId, m: Mesa, wallets: map<UserId,
                                                 Wallet>,
                                                 invites: map<InviteId, Invite>)
    requires id !in mesas && m.participants == [] && m.settledAt.None?
    ensures EntriesOk(wallets, mesas) ==> EntriesOk(wallets, mesas[id := m])
    ensures PayoutsOk(wallets, mesas) ==> PayoutsOk(wallets, mesas[id := m])
    ensures InvitesOk(invites, mesas) ==> InvitesOk(invites, mesas[id := m])
  {}

  lemma {:induction false} NewMesaIsUnknown(db: Db, id: MesaId, m: Mesa)
    requires Inv(db) && id !in db.mesas && MesaOk(db.book, m) && m.participants == [] && m.settledAt.None?
    ensures Inv(WithMesa(db, id, m))
  {
    NewMesaConcernsNobody(db.mesas, id, m, db.wallets, db.invites);
  }

  lemma {:induction false} StageIsTheSameToOthers(b: Book, m: Mesa, stage: Stage, now: Time)
    requires MesaOk(b, m) && StageAllowed(m, stage)
    ensures SameToOthers(m, AtStage(b, m, stage, now))
    ensures AtStage(b, m, stage, now).settledAt == m.settledAt
    ensures AtStage(b, m, stage, now).counters == m.counters
      || (m.settledAt.None? && AtStage(b, m, stage, now).counters.grossCollected == m.counters.grossCollected)
  {
    if stage.DraftEdited? {
      EditedDraftIsOk(b, m, stage.input, stage.context, AtStage(b, m, stage, now));
      StatusOfStage(b, m);
    }
  }

  lemma {:induction false} StageKeepsMesa(b: Book, m: Mesa, stage: Stage, now: Time)
    requires BookOk(b) && MesaOk(b, m) && StageAllowed(m, stage)
    ensures MesaOk(b, AtStage(b, m, stage, now))
  {
    match stage {
      case DraftEdited(input, context) => EditedDraftIsOk(b, m, input, context, AtStage(b, m, stage, now));
      case Published => PublishedMesaIsOk(b, m);
      case RegistrationDue(open) => CloseDueKeepsMesa(b, m, open, now);
      case ScoresCaptured => CaptureKeepsMesa(b, m, now);
      case RoundsFinished => FinishKeepsMesa(b, m);
    }
  }

  lemma {:induction false} StageKeepsInv(db: Db, id: MesaId, stage: Stage)
    requires Inv(db) && id in db.mesas && StageAllowed(db.mesas[id], stage)
    ensures Inv(WithMesa(db, id, AtStage(db.book, db.mesas[id], stage, db.now)))
  {
    StageIsTheSameToOthers(db.book, db.mesas[id], stage, db.now);
    StageKeepsMesa(db.book, db.mesas[id], stage, db.now);
    StageChanges(db, id, AtStage(db.book, db.mesas[id], stage, db.now));
  }

  lemma {:induction false} BookKeepsInv(db: Db, change: BookEvent)
    requires Inv(db) && Allowed(db.book, change)
    ensures Inv(db.(book := Next(db.book, change)))
  {
    BookStep(db.book, change);
    forall id | id in db.mesas ensures MesaOk(Next(db.book, change), db.mesas[id]) {
      BookKeepsMesa(db.book, Next(db.book, change), db.mesas[id]);
    }
  }

  lemma {:induction false} CreationKeepsInv(db: Db, id: MesaId, input: CreateInput, ctx: CreateContext, m: Mesa)
    requires Inv(db) && id !in db.mesas && CreateMesa(input, ctx) == Ok(m)
    ensures Inv(WithMesa(db, id, m))
  {
    CreatedMesaIsOk(db.book, input, ctx, m);
    StatusOfStage(db.book, m);
    NewMesaIsUnknown(db, id, m);
  }

  lemma {:induction false} InviteKeepsInv(db: Db, i: InviteId, invite: Invite)
    requires Inv(db) && i !in db.invites && InviteOk(invite, db.mesas)
    ensures Inv(db.(invites := db.invites[i := invite]))
  {}

  /** Every event keeps the database in order. */
  lemma {:induction false} StepKeepsInv(db: Db, e: Event)
    requires Inv(db) && Enabled(db, e)
    ensures Inv(Apply(db, e))
  {
    match e {
      case Ticked(_) =>
      case BookChanged(change) => BookKeepsInv(db, change);
      case MesaCreated(id, input, ctx) => CreationKeepsInv(db, id, input, ctx, CreateMesa(input, ctx).value);
      case StageReached(id, stage) => StageKeepsInv(db, id, stage);
      case JoinCommitted(r, found, inviteAt) => JoinKeepsInv(db, r, found, inviteAt);
      case MesaClosed(id, end, force, activePro) =>
        CloseKeepsInv(db, id, end, force, activePro,
                      CloseMesa(db.book, id, db.mesas[id], end, force, db.wallets, activePro, db.now).value);
      case WalletMoved(u, movement) => MovementKeepsInv(db, u, movement);
      case InviteCreated(i, id, maxUses, expiresAt) =>
        InviteKeepsInv(db, i, Invite(id, maxUses, 0, expiresAt, true, []));
    }
  }

  lemma {:induction false} EmptyIsOk()
    ensures Inv(EMPTY)
  {}

  /** Every reachable database is in order. */
  lemma {:induction false} RunKeepsInv(db: Db, events: seq<Event>, final: Db)
    requires Inv(db) && Reaches(db, events, final)
    ensures Inv(final)
    decreases |events|
  {
    if events != [] {
      StepKeepsInv(db, events[0]);
      RunKeepsInv(Apply(db, events[0]), events[1..], final);
    }
  }
}
