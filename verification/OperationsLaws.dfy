/** When the whole operations of the services go through, and what they do; a join that nothing
    interrupts is a whole operation. */
module OperationsLaws {
  import opened Collections
  import opened Tiebreak
  import opened Prize
  import opened Domain
  import opened MesaRules
  import opened Book
  import opened BookRun
  import opened Window
  import opened Wallets
  import opened Join
  import opened Lifecycle
  import opened Settlement
  import opened MesaInvariant
  import opened Competition
  import opened CompetitionInvariant
  import opened Interleaving
  import opened InterleavingLaws
  import opened Operations

  /** What a join that goes through has found. */
  lemma {:induction false} WholeJoinParts(db: Db, r: Request, activePro: bool)
    requires JoinWhole(db, r, activePro).Ok?
    ensures r.mesa in db.mesas
    ensures var m := Opened(db.mesas[r.mesa], r.publication);
      && ReadProblem(m, r.publication, activePro, db.now).None?
      && ParticipantProblem(Find(m.participants, r.userId)).None?
      && JoinDb(db, r, FoundNow(db, m, r.userId), db.now) == JoinWhole(db, r, activePro)
  {}

  lemma {:induction false} ReadMesaIsOpen(b: Book, m: Mesa, publication: bool, activePro: bool, now: Time)
    requires MesaOk(b, m) && DueBy(m, now)
    requires ReadProblem(Opened(m, publication), publication, activePro, now).None?
    requires publication ==> m.status == MesaStatus.DRAFT
    ensures m.milestones.registrationClosedAt.None?
  {}

  /** A join that goes through is an event of the competition: it keeps everything that events keep. */
  lemma {:induction false} WholeJoinIsAnEvent(db: Db, r: Request, activePro: bool)
    requires Inv(db) && DueOk(db) && JoinWhole(db, r, activePro).Ok?
    requires r.publication ==> r.mesa in db.mesas && Joinable(db.mesas[r.mesa], r)
    requires r.invite.Some? ==> r.invite.value in db.invites && db.invites[r.invite.value].mesa == r.mesa
    ensures r.mesa in db.mesas
    ensures var e := JoinCommitted(r, FoundNow(db, Opened(db.mesas[r.mesa], r.publication), r.userId), db.now);
      Enabled(db, e) && Apply(db, e) == JoinWhole(db, r, activePro).value
  {
    WholeJoinParts(db, r, activePro);
    assert DueBy(db.mesas[r.mesa], db.now);
    ReadMesaIsOpen(db.book, db.mesas[r.mesa], r.publication, activePro, db.now);
  }

  lemma {:induction false} TakesIsFound(ps: seq<Participant>, u: UserId)
    ensures Takes(ps, u) <==> Find(ps, u).Some?
  {}

  lemma {:induction false} OpenIsFound(b: Book)
    requires NumbersOk(b)
    ensures FirstOpen(b, b.numbers).Some? <==> exists n :: HasStatus(b, n, OPEN)
  {}

  /** The entry can be paid exactly by who has the money: the key never stands in the way. */
  lemma {:induction false} EntryPaidExactly(db: Db, id: MesaId, u: UserId)
    requires Inv(db) && id in db.mesas && Find(db.mesas[id].participants, u).None?
    ensures EntryPaid(db, id, db.mesas[id].terms, u).Ok? <==>
      (HasPaidEntry(db.mesas[id].terms) ==> u in db.wallets && db.wallets[u].balance >= AccessCost(db.mesas[id].terms))
  {
    TakesIsFound(db.mesas[id].participants, u);
    assert KeyCount(WalletOf(db.wallets, u).ledger, EntryKey(id)) == if PaysFor(db.mesas, id, u) then 1 else 0;
  }

  // ---- a transaction that nothing interrupts ----

  /** All the statements of a transaction, one after the other. */
  function RunAlone(db: Db, j: Transaction, activePro: bool, statements: nat): Result<Transaction, JoinError> {
    if statements == 0 then Ok(j)
    else
      var before := RunAlone(db, j, activePro, statements - 1);
      if before.Err? then before else Execute(db, before.value, activePro)
  }

  /** What a transaction has got to after its statements up to `s`. */
  ghost predicate Reached(db: Db, r: Request, activePro: bool, statements: nat, j: Transaction) {
    && RunAlone(db, NewJoin(r), activePro, statements) == Ok(j)
    && j.request == r && Place(j.next) == statements
  }

  /** A request as the services make it: a creator publishes a draft, an invite is one of the Mesa. */
  ghost predicate WellMade(db: Db, r: Request) {
    && r.mesa in db.mesas
    && (r.publication ==> Joinable(db.mesas[r.mesa], r))
    && (r.invite.Some? ==> r.invite.value in db.invites && db.invites[r.invite.value].mesa == r.mesa)
  }

  /** The invite is reserved, and the draft published in the transaction's own version. */
  lemma {:induction false} Opens(db: Db, r: Request, activePro: bool) returns (j: Transaction)
    requires WellMade(db, r) && JoinWhole(db, r, activePro).Ok?
    ensures Reached(db, r, activePro, 2, j) && j.next == ReadMesa
    ensures j.invite.Some? <==> r.invite.Some?
    ensures r.invite.Some? ==> j.inviteAt == db.now
    ensures j == NewJoin(r).(next := ReadMesa, invite := j.invite, inviteAt := j.inviteAt, row :=
                             if r.publication then Some(ColumnsOf(Opened(db.mesas[r.mesa], true))) else None)
  {
    WholeJoinParts(db, r, activePro);
    var j1 := Execute(db, NewJoin(r), activePro).value;
    assert j1.next == Publish && RunAlone(db, NewJoin(r), activePro, 0) == Ok(NewJoin(r));
    assert Reached(db, r, activePro, 1, j1);
    j := Execute(db, j1, activePro).value;
  }

  lemma {:induction false} Starts(db: Db, r: Request, activePro: bool) returns (j: Transaction)
    requires WellMade(db, r) && JoinWhole(db, r, activePro).Ok?
    ensures Reached(db, r, activePro, 4, j) && j.next == PayEntry
    ensures j.seen == Some(Opened(db.mesas[r.mesa], r.publication))
    ensures j.existing == Find(db.mesas[r.mesa].participants, r.userId)
    ensures j.scoreInitial == FoundNow(db, Opened(db.mesas[r.mesa], r.publication), r.userId).scoreInitial
    ensures j.row == if r.publication then Some(ColumnsOf(Opened(db.mesas[r.mesa], true))) else None
    ensures j.wallet.None? && j.open.None? && j.participant.None?
    ensures (j.invite.Some? <==> r.invite.Some?) && (r.invite.Some? ==> j.inviteAt == db.now)
  {
    WholeJoinParts(db, r, activePro);
    var j2 := Opens(db, r, activePro);
    var j3 := Execute(db, j2, activePro).value;
    assert Reached(db, r, activePro, 3, j3);
    j := Execute(db, j3, activePro).value;
  }

  lemma {:induction false} Pays(db: Db, r: Request, activePro: bool, j: Transaction) returns (next: Transaction)
    requires WellMade(db, r) && JoinWhole(db, r, activePro).Ok?
    requires Reached(db, r, activePro, 4, j) && j.next == PayEntry
    requires j.seen == Some(Opened(db.mesas[r.mesa], r.publication))
    ensures Reached(db, r, activePro, 5, next) && next.next == TakeSeat
    ensures next == j.(wallet := next.wallet, approvedAt := db.now, next := TakeSeat)
  {
    WholeJoinParts(db, r, activePro);
    next := Execute(db, j, activePro).value;
  }

  lemma {:induction false} Reserves(db: Db, r: Request, activePro: bool, j: Transaction) returns (next: Transaction)
    requires WellMade(db, r) && JoinWhole(db, r, activePro).Ok?
    requires Reached(db, r, activePro, 5, j) && j.next == TakeSeat
    requires j.seen == Some(Opened(db.mesas[r.mesa], r.publication))
    requires j.row == if r.publication then Some(ColumnsOf(Opened(db.mesas[r.mesa], true))) else None
    ensures Reached(db, r, activePro, 6, next) && next == j.(row := next.row, next := CloseRegistration)
    ensures next.row.Some? <==> ByCapacity(db.mesas[r.mesa].terms) || r.publication
    ensures ByCapacity(db.mesas[r.mesa].terms) ==>
      && next.row.value.counters == CountSeat(db.mesas[r.mesa].terms, db.mesas[r.mesa].counters)
      && next.row.value.milestones == db.mesas[r.mesa].milestones
  {
    WholeJoinParts(db, r, activePro);
    next := Execute(db, j, activePro).value;
  }

  lemma {:induction false} TakesSeat(db: Db, r: Request, activePro: bool, j: Transaction) returns (next: Transaction)
    requires WellMade(db, r) && JoinWhole(db, r, activePro).Ok?
    requires Reached(db, r, activePro, 5, j) && j.next == TakeSeat
    requires j.seen == Some(Opened(db.mesas[r.mesa], r.publication))
    requires j.row == if r.publication then Some(ColumnsOf(Opened(db.mesas[r.mesa], true))) else None
    requires j.open.None? && j.approvedAt == db.now
    ensures Reached(db, r, activePro, 7, next) && next.next == Enroll
    ensures next == j.(row := next.row, open := next.open, next := Enroll)
    ensures next.row.Some? <==> ByCapacity(db.mesas[r.mesa].terms) || r.publication
    ensures var m := db.mesas[r.mesa];
      next.open == if ByCapacity(m.terms) && LastSeatTaken(m.terms, CountSeat(m.terms, m.counters), m.milestones)
                   then FirstOpen(db.book, db.book.numbers) else None
  {
    var j6 := Reserves(db, r, activePro, j);
    WholeJoinParts(db, r, activePro);
    next := Execute(db, j6, activePro).value;
  }

  lemma {:induction false} Ends(db: Db, r: Request, activePro: bool, j: Transaction) returns (next: Transaction)
    requires WellMade(db, r) && Reached(db, r, activePro, 7, j)
    requires j.next == Enroll && j.seen == Some(Opened(db.mesas[r.mesa], r.publication))
    requires j.existing == Find(db.mesas[r.mesa].participants, r.userId)
    requires j.row.Some? <==> ByCapacity(db.mesas[r.mesa].terms) || r.publication
    ensures Reached(db, r, activePro, 10, next) && next.next == Commit
    ensures FindingsOf(next) == FindingsOf(j) && next.inviteAt == j.inviteAt
  {
    var j8 := Execute(db, j, activePro).value;
    assert Reached(db, r, activePro, 8, j8);
    var j9 := Execute(db, j8, activePro).value;
    assert Reached(db, r, activePro, 9, j9);
    next := Execute(db, j9, activePro).value;
  }

  lemma {:induction false} AloneStaysOk(db: Db, j: Transaction, activePro: bool, statements: nat)
    requires Inv(db) && DueOk(db) && JoinOk(db, j) && RunAlone(db, j, activePro, statements).Ok?
    ensures JoinOk(db, RunAlone(db, j, activePro, statements).value)
  {
    if statements > 0 {
      AloneStaysOk(db, j, activePro, statements - 1);
      var before := RunAlone(db, j, activePro, statements - 1).value;
      ExecuteKeeps(db, before, activePro, RunAlone(db, j, activePro, statements).value);
    }
  }

  /** The open round matters only for the last seat. */
  lemma {:induction false} OpenMattersLast(m: Mesa, u: UserId, scoreInitial: int, approvedAt: Time,
                                           open: Option<RoundNo>)
    ensures var last := ByCapacity(m.terms) && LastSeatTaken(m.terms, CountSeat(m.terms, m.counters), m.milestones);
      Joined(m, u, scoreInitial, approvedAt, if last then open else None)
        == Joined(m, u, scoreInitial, approvedAt, open)
  {}

  /** The clock of the reservation matters only when there is an invite. */
  lemma {:induction false} InviteClock(db: Db, r: Request, found: Findings, x: Time, y: Time)
    requires r.invite.Some? ==> x == y
    ensures JoinDb(db, r, found, x) == JoinDb(db, r, found, y)
  {}

  lemma {:induction false} CommitsWhole(db: Db, r: Request, activePro: bool, j: Transaction)
    requires WellMade(db, r) && JoinWhole(db, r, activePro).Ok? && JoinOk(db, j) && j.next == Commit && j.request == r
    requires j.scoreInitial == FoundNow(db, Opened(db.mesas[r.mesa], r.publication), r.userId).scoreInitial
    requires j.approvedAt == db.now && (r.invite.Some? ==> j.inviteAt == db.now)
    requires var m := db.mesas[r.mesa];
      j.open == if ByCapacity(m.terms) && LastSeatTaken(m.terms, CountSeat(m.terms, m.counters), m.milestones)
                then FirstOpen(db.book, db.book.numbers) else None
    ensures Ok(Committed(db, j)) == JoinWhole(db, r, activePro)
  {
    var m := Opened(db.mesas[r.mesa], r.publication);
    WholeJoinParts(db, r, activePro);
    CommitIsAJoin(db, j);
    OpenMattersLast(m, r.userId, j.scoreInitial, j.approvedAt, FirstOpen(db.book, db.book.numbers));
    InviteClock(db, r, FoundNow(db, m, r.userId), j.inviteAt, db.now);
  }

  /** Left alone, the statements of a join -- plain, by invite, or of a creator who publishes --
      that would go through as a whole all succeed, and commit exactly what the whole join does. */
  lemma {:induction false} AloneIsWhole(db: Db, r: Request, activePro: bool) returns (j: Transaction)
    requires Inv(db) && DueOk(db) && WellMade(db, r) && JoinWhole(db, r, activePro).Ok?
    ensures RunAlone(db, NewJoin(r), activePro, 10) == Ok(j) && j.next == Commit
    ensures Ok(Committed(db, j)) == JoinWhole(db, r, activePro)
  {
    j := Starts(db, r, activePro);
    j := Pays(db, r, activePro, j);
    j := TakesSeat(db, r, activePro, j);
    j := Ends(db, r, activePro, j);
    AloneStaysOk(db, NewJoin(r), activePro, 10);
    CommitsWhole(db, r, activePro, j);
  }
}
