/** The committed state of the competition database and the events that change it. */
module Competition {
  import opened Collections
  import opened Tiebreak
  import opened Prize
  import opened Domain
  import opened MesaRules
  import opened Book
  import opened BookRun
  import opened Window
  import opened Wallets
  import opened Join
  import opened Lifecycle
  import opened Settlement

  type InviteId = int

  /** `usedBy` are the users of the audit rows of used invites. */
  datatype Invite = Invite(
    mesa: MesaId,
    maxUses: Option<int>,
    usedCount: int,
    expiresAt: Option<Time>,
    isActive: bool,
    usedBy: seq<UserId>)

  datatype Db = Db(
    now: Time,
    book: Book,
    wallets: map<UserId, Wallet>,
    mesas: map<MesaId, Mesa>,
    invites: map<InviteId, Invite>,
    settlements: map<MesaId, Settlement>)

  /** A join: by the creator who publishes, by invite, or plain. */
  datatype Request = Request(mesa: MesaId, userId: UserId, publication: bool, invite: Option<InviteId>)

  /** What a join has found out by the time it commits. */
  datatype Findings = Findings(scoreInitial: int, approvedAt: Time, open: Option<RoundNo>)

  // ---- joining, as one step ----

  /** Compare-and-increment of an invite's uses. */
  function Reserved(i: Invite, now: Time): Option<Invite> {
    if i.isActive && (i.expiresAt.Some? ==> i.expiresAt.value > now)
       && (i.maxUses.Some? ==> i.usedCount < i.maxUses.value)
    then Some(i.(usedCount := i.usedCount + 1)) else None
  }

  /** The wallet after paying the entry; an unpaid entry leaves it alone. */
  function EntryPaid(db: Db, id: MesaId, t: Terms, u: UserId): Result<map<UserId, Wallet>, JoinError> {
    if !HasPaidEntry(t) then Ok(db.wallets)
    else if u !in db.wallets then Err(InsufficientBalance)
    else
      var debited := Debited(db.wallets[u], AccessCost(t), Some(EntryKey(id)));
      if db.wallets[u].balance < AccessCost(t) then Err(InsufficientBalance)
      else if debited.None? then Err(LedgerRefused)
      else Ok(db.wallets[u := debited.value])
  }

  function InviteUsed(db: Db, r: Request, at: Time): Result<map<InviteId, Invite>, JoinError> {
    if r.invite.None? then Ok(db.invites)
    else if r.invite.value !in db.invites then Err(InviteNotFound)
    else
      var reserved := Reserved(db.invites[r.invite.value], at);
      if reserved.None? then Err(InviteUnavailable)
      else Ok(db.invites[r.invite.value := reserved.value.(usedBy := reserved.value.usedBy + [r.userId])])
  }

  /** The Mesa as the join finds it: publication activates it first. */
  function Opened(m: Mesa, publication: bool): Mesa {
    if publication then m.(status := ACTIVE) else m
  }

  /** Everything a join writes, as one step; `inviteAt` is the clock of the invite's reservation. */
  function JoinDb(db: Db, r: Request, found: Findings, inviteAt: Time): Result<Db, JoinError> {
    if r.mesa !in db.mesas then Err(MesaNotFound)
    else
      var m := Opened(db.mesas[r.mesa], r.publication);
      var joined := Joined(m, r.userId, found.scoreInitial, found.approvedAt, found.open);
      var wallets, invites := EntryPaid(db, r.mesa, m.terms, r.userId), InviteUsed(db, r, inviteAt);
      if invites.Err? then Err(invites.error)
      else if wallets.Err? then Err(wallets.error)
      else if joined.Err? then Err(joined.error)
      else Ok(db.(wallets := wallets.value, mesas := db.mesas[r.mesa := joined.value], invites := invites.value))
  }

  /** The status a Mesa has just before the join writes. */
  predicate Joinable(m: Mesa, r: Request) {
    if r.publication
    then m.status == MesaStatus.DRAFT && m.terms.createdBy == r.userId && !m.terms.createdByAdmin
    else m.status == ACTIVE
  }

  // ---- events ----

  /** The steps of a Mesa that concern nobody else. */
  datatype Stage =
    | DraftEdited(input: CreateInput, context: CreateContext)
    | Published
    | RegistrationDue(open: Option<RoundNo>)
    | ScoresCaptured
    | RoundsFinished

  /** Only a Mesa created by an administrator is published without its creator joining. */
  predicate StageAllowed(m: Mesa, stage: Stage) {
    && (stage.DraftEdited? ==> EditDraft(m, stage.input, stage.context).Ok?)
    && (stage.Published? ==> m.status == MesaStatus.DRAFT && m.terms.createdByAdmin)
  }

  function AtStage(b: Book, m: Mesa, stage: Stage, now: Time): Mesa {
    match stage
    case DraftEdited(input, context) =>
      var edited := EditDraft(m, input, context);
      if edited.Ok? then edited.value else m
    case Published => m.(status := ACTIVE)
    case RegistrationDue(open) => CloseDue(m, open, now)
    case ScoresCaptured => Capture(b, m, now)
    case RoundsFinished => FinishDue(b, m)
  }

  datatype Event =
    | Ticked(time: Time)
    | BookChanged(change: BookEvent)
    | MesaCreated(mesa: MesaId, input: CreateInput, context: CreateContext)
    | StageReached(mesa: MesaId, stage: Stage)
    | JoinCommitted(request: Request, found: Findings, inviteAt: Time)
    | MesaClosed(mesa: MesaId, end: Option<Time>, force: bool, activePro: set<UserId>)
    | WalletMoved(userId: UserId, movement: LedgerEntry)
    | InviteCreated(invite: InviteId, mesa: MesaId, maxUses: Option<int>, expiresAt: Option<Time>)

  ghost predicate JoinEnabled(db: Db, r: Request, found: Findings, inviteAt: Time) {
    && JoinDb(db, r, found, inviteAt).Ok?
    && Joinable(db.mesas[r.mesa], r) && db.mesas[r.mesa].milestones.registrationClosedAt.None?
    && (found.open.Some? ==> HasStatus(db.book, found.open.value, OPEN))
    && (r.invite.Some? ==> db.invites[r.invite.value].mesa == r.mesa)
  }

  /** The end date may have been read before it was set; then only force closes the Mesa. */
  ghost predicate CloseEnabled(db: Db, id: MesaId, end: Option<Time>, force: bool, activePro: set<UserId>) {
    && id in db.mesas && (end == db.mesas[id].milestones.endDate || end.None?)
    && CloseMesa(db.book, id, db.mesas[id], end, force, db.wallets, activePro, db.now).Ok?
  }

  /** An administrator credits, creating the wallet if need be, or debits what is there. */
  predicate MovementAllowed(db: Db, u: UserId, movement: LedgerEntry) {
    && movement.amount > 0 && movement.key.None?
    && (movement.kind == DEBIT ==> u in db.wallets && db.wallets[u].balance >= movement.amount)
  }

  ghost predicate Enabled(db: Db, e: Event) {
    match e
    case Ticked(time) => time >= db.now
    case BookChanged(change) => Allowed(db.book, change)
    case MesaCreated(id, input, ctx) => id !in db.mesas && CreateMesa(input, ctx).Ok?
    case StageReached(id, stage) => id in db.mesas && StageAllowed(db.mesas[id], stage)
    case JoinCommitted(r, found, inviteAt) => JoinEnabled(db, r, found, inviteAt)
    case MesaClosed(id, end, force, activePro) => CloseEnabled(db, id, end, force, activePro)
    case WalletMoved(u, movement) => MovementAllowed(db, u, movement)
    case InviteCreated(i, id, maxUses, _) => i !in db.invites && id in db.mesas && maxUses.GetOr(1) > 0
  }

  function WithMesa(db: Db, id: MesaId, m: Mesa): Db {
    db.(mesas := db.mesas[id := m])
  }

  function WithWallet(db: Db, u: UserId, w: Wallet): Db {
    db.(wallets := db.wallets[u := w])
  }

  function AfterClosing(db: Db, id: MesaId, c: Closing): Db {
    WithMesa(db, id, c.mesa).(
      wallets := c.wallets,
      settlements := if c.settlement.Some? then db.settlements[id := c.settlement.value] else db.settlements)
  }

  ghost function Apply(db: Db, e: Event): Db
    requires Enabled(db, e)
  {
    match e
    case Ticked(time) => db.(now := time)
    case BookChanged(change) => db.(book := Next(db.book, change))
    case MesaCreated(id, input, ctx) => WithMesa(db, id, CreateMesa(input, ctx).value)
    case StageReached(id, stage) => WithMesa(db, id, AtStage(db.book, db.mesas[id], stage, db.now))
    case JoinCommitted(r, found, inviteAt) => JoinDb(db, r, found, inviteAt).value
    case MesaClosed(id, end, force, activePro) =>
      AfterClosing(db, id, CloseMesa(db.book, id, db.mesas[id], end, force, db.wallets, activePro, db.now).value)
    case WalletMoved(u, movement) => WithWallet(db, u, Append(WalletOf(db.wallets, u), movement))
    case InviteCreated(i, id, maxUses, expiresAt) =>
      db.(invites := db.invites[i := Invite(id, maxUses, 0, expiresAt, true, [])])
  }

  const EMPTY := Db(0, EMPTY_BOOK, map[], map[], map[], map[])

  /** The events can happen one after the other from `db`, and lead to `final`. */
  ghost predicate Reaches(db: Db, events: seq<Event>, final: Db)
    decreases |events|
  {
    if events == [] then final == db
    else Enabled(db, events[0]) && Reaches(Apply(db, events[0]), events[1..], final)
  }
}
