/** Every interleaving of join transactions commits what some sequence of whole joins would. */
module InterleavingLaws {
  import opened Collections
  import opened Tiebreak
  import opened Prize
  import opened Domain
  import opened MesaRules
  import opened Book
  import opened BookRun
  import opened Window
  import opened Wallets
  import opened Join
  import opened Settlement
  import opened MesaInvariant
  import opened Competition
  import opened CompetitionInvariant
  import opened Progress
  import opened Interleaving

  // ---- what a transaction in flight keeps ----

  /** The Mesa it has read still has its terms and, if closed by date, is still open. */
  ghost predicate SeenOk(db: Db, j: Transaction) {
    Done(j, ReadMesa) ==>
      && j.seen.Some? && j.request.mesa in db.mesas
      && var m := db.mesas[j.request.mesa];
        && j.seen.value.terms == m.terms
        && (!j.request.publication ==> m.status != MesaStatus.DRAFT)
        && (!ByCapacity(m.terms) ==> m.milestones.registrationClosedAt.None?)
  }

  ghost predicate InviteOfJoin(db: Db, j: Transaction) {
    && (j.invite.Some? <==> Done(j, ReserveInvite) && j.request.invite.Some?)
    && (j.invite.Some? ==>
      && j.request.invite.value in db.invites && db.invites[j.request.invite.value].mesa == j.request.mesa
      && Reserved(db.invites[j.request.invite.value], j.inviteAt) == j.invite)
  }

  ghost predicate WalletOfJoin(db: Db, j: Transaction) {
    && (j.wallet.Some? <==> Done(j, PayEntry) && j.seen.Some? && HasPaidEntry(j.seen.value.terms))
    && (j.wallet.Some? ==>
      && j.request.userId in db.wallets
      && Debited(db.wallets[j.request.userId], AccessCost(j.seen.value.terms), Some(EntryKey(j.request.mesa)))
        == j.wallet)
  }

  /** The transaction has counted its participant on the Mesa's row. */
  predicate SeatCounted(j: Transaction, t: Terms) {
    Done(j, if ByCapacity(t) then TakeSeat else CountParticipant)
  }

  function CountersOfJoin(m: Mesa, j: Transaction): Counters {
    if !SeatCounted(j, m.terms) then m.counters
    else if !Done(j, WriteTotals) then CountSeat(m.terms, m.counters)
    else UpdateTotals(m.terms, CountSeat(m.terms, m.counters))
  }

  /** The round found open at the last seat. */
  function MilestonesOfJoin(m: Mesa, j: Transaction): Option<Milestones> {
    if ByCapacity(m.terms) && Done(j, CloseRegistration)
    then CloseIfFull(m.terms, CountSeat(m.terms, m.counters), m.milestones, j.open, j.approvedAt)
    else Some(m.milestones)
  }

  /** Its version of the row is what its statements make of the committed one. */
  ghost predicate RowOk(m: Mesa, j: Transaction) {
    && Joinable(m, j.request) && m.milestones.registrationClosedAt.None?
    && MilestonesOfJoin(m, j).Some?
    && j.row == Some(Columns(ACTIVE, CountersOfJoin(m, j), MilestonesOfJoin(m, j).value))
    && (ByCapacity(m.terms) && SeatCounted(j, m.terms) ==> ReserveSeat(m.terms, m.counters).Some?)
  }

  ghost predicate RowOfJoin(db: Db, j: Transaction) {
    && (j.row.Some? ==> j.request.mesa in db.mesas && RowOk(db.mesas[j.request.mesa], j))
    && (j.row.Some? <==>
      || (j.request.publication && Done(j, Publish))
      || (j.seen.Some? && SeatCounted(j, j.seen.value.terms)))
  }

  ghost predicate OpenOfJoin(db: Db, j: Transaction) {
    j.open.Some? ==> HasStatus(db.book, j.open.value, OPEN)
  }

  ghost predicate ParticipantOfJoin(db: Db, j: Transaction) {
    && j.existing.None?
    && (j.participant.Some? <==> Done(j, Enroll))
    && (Done(j, Enroll) ==>
      && j.seen.Some? && j.request.mesa in db.mesas
      && Find(db.mesas[j.request.mesa].participants, j.request.userId).None?
      && j.participant.value == Enrolled(j.seen.value.terms, None, j.request.userId, j.scoreInitial, j.approvedAt))
  }

  ghost predicate JoinOk(db: Db, j: Transaction) {
    && SeenOk(db, j) && InviteOfJoin(db, j) && WalletOfJoin(db, j) && RowOfJoin(db, j) && OpenOfJoin(db, j)
    && ParticipantOfJoin(db, j) && (Done(j, ReadMesa) <==> j.seen.Some?)
  }

  /** A Mesa that closes by date does not close before its date. */
  ghost predicate DueBy(m: Mesa, now: Time) {
    !ByCapacity(m.terms) && m.milestones.registrationClosedAt.Some? ==>
      m.terms.entryEndDate.Some? && m.terms.entryEndDate.value <= now
  }

  ghost predicate AllDueBy(mesas: map<MesaId, Mesa>, now: Time) {
    forall id :: id in mesas ==> DueBy(mesas[id], now)
  }

  ghost predicate DueOk(db: Db) {
    AllDueBy(db.mesas, db.now)
  }

  // ---- other transactions do not disturb it ----

  lemma {:induction false} UndisturbedStays(db: Db, after: Db, j: Transaction)
    requires JoinOk(db, j) && Undisturbed(db, after, j)
    requires j.request.mesa in db.mesas ==>
      j.request.mesa in after.mesas && Later(db.mesas[j.request.mesa], after.mesas[j.request.mesa])
    ensures JoinOk(after, j)
  {}

  // ---- its own statements keep it ----

  lemma {:induction false} ReserveInviteKeeps(db: Db, j: Transaction, next: Transaction)
    requires JoinOk(db, j) && j.next == ReserveInvite && DoReserveInvite(db, j) == Ok(next)
    ensures JoinOk(db, next)
  {}

  lemma {:induction false} PublishKeeps(db: Db, j: Transaction, next: Transaction)
    requires Inv(db) && JoinOk(db, j) && j.next == Publish && DoPublish(db, j) == Ok(next)
    ensures JoinOk(db, next)
  {}

  lemma {:induction false} ReadMesaKeeps(db: Db, j: Transaction, activePro: bool, next: Transaction)
    requires Inv(db) && DueOk(db) && JoinOk(db, j) && j.next == ReadMesa && DoReadMesa(db, j, activePro) == Ok(next)
    ensures JoinOk(db, next)
  {}

  lemma {:induction false} OnlyApproved(b: Book, m: Mesa, u: UserId)
    requires MesaOk(b, m) && ParticipantProblem(Find(m.participants, u)).None?
    ensures Find(m.participants, u).None?
  {}

  lemma {:induction false} ReadParticipantKeeps(db: Db, j: Transaction, next: Transaction)
    requires Inv(db) && JoinOk(db, j) && j.next == ReadParticipant && DoReadParticipant(db, j) == Ok(next)
    ensures JoinOk(db, next)
  {}

  lemma {:induction false} PayEntryKeeps(db: Db, j: Transaction, next: Transaction)
    requires JoinOk(db, j) && j.next == PayEntry && DoPayEntry(db, j) == Ok(next)
    ensures JoinOk(db, next)
  {}

  /** A Mesa with a free seat is open, and active unless it is a draft. */
  lemma {:induction false} FreeSeatIsOpen(b: Book, m: Mesa)
    requires MesaOk(b, m) && ByCapacity(m.terms) && ReserveSeat(m.terms, m.counters).Some?
    ensures m.milestones.registrationClosedAt.None? && m.status != MesaStatus.CLOSED
  {}

  lemma {:induction false} TakeSeatKeepsRow(db: Db, j: Transaction, next: Transaction)
    requires Inv(db) && JoinOk(db, j) && j.next == TakeSeat && DoTakeSeat(db, j) == Ok(next)
    ensures RowOfJoin(db, next) && next == j.(row := next.row, next := CloseRegistration)
  {
    var m := db.mesas[j.request.mesa];
    if ByCapacity(m.terms) {
      FreeSeatIsOpen(db.book, m);
    }
  }

  lemma {:induction false} TakeSeatKeeps(db: Db, j: Transaction, next: Transaction)
    requires Inv(db) && JoinOk(db, j) && j.next == TakeSeat && DoTakeSeat(db, j) == Ok(next)
    ensures JoinOk(db, next)
  {
    TakeSeatKeepsRow(db, j, next);
    OnlyRowWritten(db, j, next);
  }

  /** A statement between the entry and the enrolment writes the row of the Mesa, if anything. */
  lemma {:induction false} OnlyRowWritten(db: Db, j: Transaction, next: Transaction)
    requires JoinOk(db, j) && RowOfJoin(db, next) && OpenOfJoin(db, next)
    requires next == j.(row := next.row, open := next.open, next := next.next)
    requires
      || (j.next == TakeSeat && next.next == CloseRegistration) || (j.next == CloseRegistration && next.next == Enroll)
      || (j.next == CountParticipant && next.next == WriteTotals) || (j.next == WriteTotals && next.next == Commit)
    ensures JoinOk(db, next)
  {}

  lemma {:induction false} CloseRegistrationKeepsRow(db: Db, j: Transaction, next: Transaction)
    requires JoinOk(db, j) && j.next == CloseRegistration && DoCloseRegistration(db, j) == Ok(next)
    ensures RowOfJoin(db, next) && OpenOfJoin(db, next)
    ensures next == j.(row := next.row, open := next.open, next := Enroll)
  {}

  lemma {:induction false} CloseRegistrationKeeps(db: Db, j: Transaction, next: Transaction)
    requires JoinOk(db, j) && j.next == CloseRegistration && DoCloseRegistration(db, j) == Ok(next)
    ensures JoinOk(db, next)
  {
    CloseRegistrationKeepsRow(db, j, next);
    OnlyRowWritten(db, j, next);
  }

  lemma {:induction false} EnrollKeeps(db: Db, j: Transaction, next: Transaction)
    requires JoinOk(db, j) && j.next == Enroll && DoEnroll(db, j) == Ok(next)
    ensures JoinOk(db, next)
  {}

  /** A Mesa that is closed by date is open for every join that has read it. */
  lemma {:induction false} CountParticipantKeepsRow(db: Db, j: Transaction, next: Transaction)
    requires Inv(db) && JoinOk(db, j) && j.next == CountParticipant && DoCountParticipant(db, j) == Ok(next)
    ensures RowOfJoin(db, next) && next == j.(row := next.row, next := WriteTotals)
  {
    var m := db.mesas[j.request.mesa];
    assert MesaOk(db.book, m);
  }

  lemma {:induction false} CountParticipantKeeps(db: Db, j: Transaction, next: Transaction)
    requires Inv(db) && JoinOk(db, j) && j.next == CountParticipant && DoCountParticipant(db, j) == Ok(next)
    ensures JoinOk(db, next)
  {
    CountParticipantKeepsRow(db, j, next);
    OnlyRowWritten(db, j, next);
  }

  lemma {:induction false} WriteTotalsKeeps(db: Db, j: Transaction, next: Transaction)
    requires JoinOk(db, j) && j.next == WriteTotals && DoWriteTotals(j) == Ok(next)
    ensures JoinOk(db, next)
  {}

  lemma {:induction false} ExecuteKeeps(db: Db, j: Transaction, activePro: bool, next: Transaction)
    requires Inv(db) && DueOk(db) && JoinOk(db, j) && Execute(db, j, activePro) == Ok(next)
    ensures JoinOk(db, next)
  {
    match j.next {
      case ReserveInvite => ReserveInviteKeeps(db, j, next);
      case Publish => PublishKeeps(db, j, next);
      case ReadMesa => ReadMesaKeeps(db, j, activePro, next);
      case ReadParticipant => ReadParticipantKeeps(db, j, next);
      case PayEntry => PayEntryKeeps(db, j, next);
      case TakeSeat => TakeSeatKeeps(db, j, next);
      case CloseRegistration => CloseRegistrationKeeps(db, j, next);
      case Enroll => EnrollKeeps(db, j, next);
      case CountParticipant => CountParticipantKeeps(db, j, next);
      case WriteTotals => WriteTotalsKeeps(db, j, next);
      case Commit =>
    }
  }

  // ---- its commit is one whole join ----

  function FindingsOf(j: Transaction): Findings {
    Findings(j.scoreInitial, j.approvedAt, j.open)
  }

  lemma {:induction false} CommitsMesa(db: Db, j: Transaction)
    requires JoinOk(db, j) && j.next == Commit
    ensures j.request.mesa in db.mesas && j.participant.Some?
    ensures var m := db.mesas[j.request.mesa];
      Joined(Opened(m, j.request.publication), j.request.userId, j.scoreInitial, j.approvedAt, j.open)
        == Ok(Visible(m, j).(participants := Upsert(m.participants, j.participant.value)))
  {}

  lemma {:induction false} CommitsWallet(db: Db, j: Transaction)
    requires JoinOk(db, j) && j.next == Commit && j.request.mesa in db.mesas
    ensures EntryPaid(db, j.request.mesa, db.mesas[j.request.mesa].terms, j.request.userId)
      == Ok(if j.wallet.Some? then db.wallets[j.request.userId := j.wallet.value] else db.wallets)
  {}

  lemma {:induction false} CommitsInvite(db: Db, j: Transaction)
    requires JoinOk(db, j) && j.next == Commit
    ensures InviteUsed(db, j.request, j.inviteAt) == Ok(Committed(db, j).invites)
  {}

  /** Whatever happened since the transaction began, its commit has the effect of a whole join
      on the database as it is then. */
  lemma {:induction false} CommitIsAJoin(db: Db, j: Transaction)
    requires JoinOk(db, j) && j.next == Commit
    ensures JoinDb(db, j.request, FindingsOf(j), j.inviteAt) == Ok(Committed(db, j))
    ensures JoinEnabled(db, j.request, FindingsOf(j), j.inviteAt)
  {
    CommitsMesa(db, j);
    CommitsWallet(db, j);
    CommitsInvite(db, j);
  }

  /** It touches nothing that another transaction has locked. */
  lemma {:induction false} CommitDisturbsNobody(db: Db, j: Transaction, other: Transaction)
    requires JoinOk(db, j) && j.next == Commit && JoinOk(db, other) && !Conflict(j, other)
    ensures Undisturbed(db, Committed(db, j), other)
  {}
}
