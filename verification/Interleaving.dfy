/** Join transactions as they really run: statement by statement, at the isolation level READ
    COMMITTED, between everything else that happens. */
module Interleaving {
  import opened Collections
  import opened Prize
  import opened Domain
  import opened MesaRules
  import opened Book
  import opened BookRun
  import opened Window
  import opened Wallets
  import opened Join
  import opened Settlement
  import opened Competition

  type TxId = int

  /** The statement that a transaction executes next. */
  datatype Statement =
    | ReserveInvite | Publish | ReadMesa | ReadParticipant | PayEntry | TakeSeat | CloseRegistration
    | Enroll | CountParticipant | WriteTotals | Commit

  /** The columns of the `rankings` row that a join writes. */
  datatype Columns = Columns(status: MesaStatus, counters: Counters, milestones: Milestones)

  /** A join in flight. What it has read may be stale. What it has written -- its versions of the
      invite, the wallet, the Mesa's row and the participant -- nobody else sees, and the rows
      are locked; `open` is a round held FOR SHARE. */
  datatype Transaction = Transaction(
    request: Request,
    next: Statement,
    inviteAt: Time,
    invite: Option<Invite>,
    seen: Option<Mesa>,
    existing: Option<Participant>,
    scoreInitial: int,
    approvedAt: Time,
    wallet: Option<Wallet>,
    row: Option<Columns>,
    open: Option<RoundNo>,
    participant: Option<Participant>)

  /** A closing in flight, with the Mesa as it has read it. */
  datatype Closer = Closer(mesa: MesaId, seen: Mesa, force: bool)

  datatype World = World(db: Db, joins: map<TxId, Transaction>, closers: map<TxId, Closer>)

  function NewJoin(r: Request): Transaction {
    Transaction(r, ReserveInvite, 0, None, None, None, 0, 0, None, None, None, None)
  }

  function Place(s: Statement): nat {
    match s
    case ReserveInvite => 0
    case Publish => 1
    case ReadMesa => 2
    case ReadParticipant => 3
    case PayEntry => 4
    case TakeSeat => 5
    case CloseRegistration => 6
    case Enroll => 7
    case CountParticipant => 8
    case WriteTotals => 9
    case Commit => 10
  }

  predicate Done(j: Transaction, s: Statement) {
    Place(j.next) > Place(s)
  }

  // ---- statements ----

  function ColumnsOf(m: Mesa): Columns {
    Columns(m.status, m.counters, m.milestones)
  }

  /** The row as the transaction sees it: its own version if it has written one. */
  function Visible(m: Mesa, j: Transaction): Mesa {
    match j.row
    case None => m
    case Some(c) => m.(status := c.status, counters := c.counters, milestones := c.milestones)
  }

  function DoReserveInvite(db: Db, j: Transaction): Result<Transaction, JoinError> {
    var r := j.request;
    if r.invite.None? then Ok(j.(next := Publish))
    else if r.invite.value !in db.invites || db.invites[r.invite.value].mesa != r.mesa then Err(InviteNotFound)
    else
      var reserved := Reserved(db.invites[r.invite.value], db.now);
      if reserved.None? then Err(InviteUnavailable)
      else Ok(j.(invite := Some(reserved.value), inviteAt := db.now, next := Publish))
  }

  function DoPublish(db: Db, j: Transaction): Result<Transaction, JoinError> {
    var r := j.request;
    if !r.publication then Ok(j.(next := ReadMesa))
    else if r.mesa !in db.mesas then Err(MesaNotFound)
    else if !Joinable(db.mesas[r.mesa], r) then Err(MesaNotOpen)
    else Ok(j.(row := Some(ColumnsOf(db.mesas[r.mesa].(status := ACTIVE))), next := ReadMesa))
  }

  function DoReadMesa(db: Db, j: Transaction, activePro: bool): Result<Transaction, JoinError> {
    var r := j.request;
    if r.mesa !in db.mesas then Err(MesaNotFound)
    else
      var seen := Visible(db.mesas[r.mesa], j);
      var problem := ReadProblem(seen, r.publication, activePro, db.now);
      if problem.Some? then Err(problem.value) else Ok(j.(seen := Some(seen), next := ReadParticipant))
  }

  function DoReadParticipant(db: Db, j: Transaction): Result<Transaction, JoinError> {
    var r := j.request;
    if r.mesa !in db.mesas || j.seen.None? then Err(MesaNotFound)
    else
      var existing := Find(db.mesas[r.mesa].participants, r.userId);
      var problem := ParticipantProblem(existing);
      if problem.Some? then Err(problem.value)
      else Ok(j.(existing := existing, next := PayEntry,
                 scoreInitial := GetScoreTotalBefore(db.book, r.userId, BaselineAt(j.seen.value, db.now))))
  }

  function DoPayEntry(db: Db, j: Transaction): Result<Transaction, JoinError> {
    var r := j.request;
    if j.seen.None? then Err(MesaNotFound)
    else if !HasPaidEntry(j.seen.value.terms) then Ok(j.(approvedAt := db.now, next := TakeSeat))
    else if r.userId !in db.wallets then Err(InsufficientBalance)
    else
      var debited := Debited(db.wallets[r.userId], AccessCost(j.seen.value.terms), Some(EntryKey(r.mesa)));
      if db.wallets[r.userId].balance < AccessCost(j.seen.value.terms) then Err(InsufficientBalance)
      else if debited.None? then Err(LedgerRefused)
      else Ok(j.(wallet := debited, approvedAt := db.now, next := TakeSeat))
  }

  function DoTakeSeat(db: Db, j: Transaction): Result<Transaction, JoinError> {
    var r := j.request;
    if r.mesa !in db.mesas || j.seen.None? then Err(MesaNotFound)
    else if !ByCapacity(j.seen.value.terms) then Ok(j.(next := CloseRegistration))
    else
      var current := Visible(db.mesas[r.mesa], j);
      var reserved := ReserveSeat(j.seen.value.terms, current.counters);
      if reserved.None? then Err(CapacityReached)
      else Ok(j.(row := Some(ColumnsOf(current.(counters := reserved.value))), next := CloseRegistration))
  }

  function DoCloseRegistration(db: Db, j: Transaction): Result<Transaction, JoinError> {
    if j.seen.None? then Err(MesaNotFound)
    else if !ByCapacity(j.seen.value.terms) || j.row.None? then Ok(j.(next := Enroll))
    else
      var (t, row) := (j.seen.value.terms, j.row.value);
      var open := if LastSeatTaken(t, row.counters, row.milestones) then FirstOpen(db.book, db.book.numbers) else None;
      var closed := CloseIfFull(t, row.counters, row.milestones, open, j.approvedAt);
      if closed.None? then Err(NoOpenRound)
      else Ok(j.(row := Some(row.(milestones := closed.value)), open := open, next := Enroll))
  }

  /** A row found before is updated, whatever it has become since; otherwise one is created,
      which the unique index refuses when there is one by now. */
  function DoEnroll(db: Db, j: Transaction): Result<Transaction, JoinError> {
    var r := j.request;
    if r.mesa !in db.mesas || j.seen.None? then Err(MesaNotFound)
    else
      var current := Find(db.mesas[r.mesa].participants, r.userId);
      if j.existing.None? && current.Some? then Err(AlreadyParticipates)
      else Ok(j.(participant := Some(Enrolled(j.seen.value.terms, current, r.userId, j.scoreInitial, j.approvedAt)),
                 next := CountParticipant))
  }

  function DoCountParticipant(db: Db, j: Transaction): Result<Transaction, JoinError> {
    var r := j.request;
    if r.mesa !in db.mesas || j.seen.None? then Err(MesaNotFound)
    else if ByCapacity(j.seen.value.terms) then Ok(j.(next := WriteTotals))
    else
      var current := Visible(db.mesas[r.mesa], j);
      Ok(j.(row := Some(ColumnsOf(current.(counters := CountSeat(j.seen.value.terms, current.counters)))),
        next := WriteTotals))
  }

  function DoWriteTotals(j: Transaction): Result<Transaction, JoinError> {
    if j.seen.None? || j.row.None? then Err(MesaNotFound)
    else Ok(j.(row := Some(j.row.value.(counters := UpdateTotals(j.seen.value.terms, j.row.value.counters))),
      next := Commit))
  }

  /** Executes the next statement on what has been committed so far. */
  function Execute(db: Db, j: Transaction, activePro: bool): Result<Transaction, JoinError> {
    match j.next
    case ReserveInvite => DoReserveInvite(db, j)
    case Publish => DoPublish(db, j)
    case ReadMesa => DoReadMesa(db, j, activePro)
    case ReadParticipant => DoReadParticipant(db, j)
    case PayEntry => DoPayEntry(db, j)
    case TakeSeat => DoTakeSeat(db, j)
    case CloseRegistration => DoCloseRegistration(db, j)
    case Enroll => DoEnroll(db, j)
    case CountParticipant => DoCountParticipant(db, j)
    case WriteTotals => DoWriteTotals(j)
    case Commit => Ok(j)
  }

  /** Makes everything the transaction has written visible at once. */
  function Committed(db: Db, j: Transaction): Db {
    var r := j.request;
    var m := if r.mesa in db.mesas && j.participant.Some?
             then db.mesas[r.mesa := Visible(db.mesas[r.mesa], j).(
               participants := Upsert(db.mesas[r.mesa].participants, j.participant.value))]
             else db.mesas;
    db.(wallets := if j.wallet.Some? then db.wallets[r.userId := j.wallet.value] else db.wallets,
       mesas := m,
       invites := if j.invite.Some? && r.invite.Some?
                  then db.invites[r.invite.value := j.invite.value.(usedBy := j.invite.value.usedBy + [r.userId])]
                  else db.invites)
  }

  // ---- locks ----

  /** The two transactions have written the same row. */
  predicate Conflict(a: Transaction, b: Transaction) {
    || (a.invite.Some? && b.invite.Some? && a.request.invite == b.request.invite)
    || (a.wallet.Some? && b.wallet.Some? && a.request.userId == b.request.userId)
    || (a.row.Some? && b.row.Some? && a.request.mesa == b.request.mesa)
    || (a.participant.Some? && b.participant.Some? && a.request.mesa == b.request.mesa
      && a.request.userId == b.request.userId)
  }

  /** What is committed meanwhile leaves alone the rows that the transaction has locked; and --
      an assumption of this model -- registration is not closed by date under a join that has
      found it open. */
  ghost predicate Undisturbed(db: Db, after: Db, j: Transaction) {
    var r := j.request;
    && (j.invite.Some? && r.invite.Some? && r.invite.value in db.invites ==>
      r.invite.value in after.invites && after.invites[r.invite.value] == db.invites[r.invite.value])
    && (j.wallet.Some? && r.userId in db.wallets ==>
      r.userId in after.wallets && after.wallets[r.userId] == db.wallets[r.userId])
    && (j.open.Some? && HasStatus(db.book, j.open.value, OPEN) ==> HasStatus(after.book, j.open.value, OPEN))
    && (r.mesa in db.mesas ==>
      && r.mesa in after.mesas
      && var (m, n) := (db.mesas[r.mesa], after.mesas[r.mesa]);
        && (j.row.Some? ==> ColumnsOf(n) == ColumnsOf(m) && n.terms == m.terms)
        && (j.participant.Some? && Find(m.participants, r.userId).None? ==> Find(n.participants, r.userId).None?)
        && (Done(j, ReadMesa) && !ByCapacity(m.terms) && m.milestones.registrationClosedAt.None? ==>
          n.milestones.registrationClosedAt.None?))
  }
}
