/** What a join, a publication and the use of an invite come to, in the columns of the tables: when
    they go through, why they are refused, and what they write. */
module JoinOutcomes {
  import opened Collections
  import opened Tiebreak
  import opened Prize
  import opened Domain
  import opened MesaRules
  import opened Book
  import opened BookRun
  import opened Window
  import opened Wallets
  import opened Join
  import opened Settlement
  import opened MesaInvariant
  import opened Competition
  import opened CompetitionInvariant
  import opened CreationPolicy
  import opened InterleavingLaws
  import opened Operations
  import opened OperationsLaws
  import opened ClosingOutcomes

  // ---- in the columns ----

  function Cost(t: Terms): int {
    if t.accessCost.Some? then t.accessCost.value else t.entryFee
  }

  /** A Mesa for subscribers admits who is one, a Mesa for the others who is not. */
  predicate MayJoin(t: Terms, activePro: bool) {
    && (t.eligibility == SUBSCRIBERS_ONLY ==> activePro)
    && (t.eligibility == FREE_ONLY ==> !activePro)
  }

  /** It has started, and neither the entries nor -- without an end of the entries -- the Mesa are over. */
  predicate WindowIsOpen(m: Mesa, now: Time) {
    && (m.terms.startDate.Some? ==> m.terms.startDate.value <= now)
    && (m.terms.entryEndDate.Some? ==> now < m.terms.entryEndDate.value)
    && (m.terms.entryEndDate.None? && m.milestones.endDate.Some? ==> now < m.milestones.endDate.value)
  }

  predicate IsFull(m: Mesa) {
    && m.terms.registrationCloseMode == CAPACITY
    && m.terms.maxParticipants.Some? && |m.participants| >= m.terms.maxParticipants.value
  }

  predicate IsLastSeat(m: Mesa) {
    && m.terms.registrationCloseMode == CAPACITY
    && m.terms.maxParticipants == Some(|m.participants| + 1)
  }

  predicate CanPay(db: Db, t: Terms, u: UserId) {
    Cost(t) > 0 ==> u in db.wallets && db.wallets[u].balance >= Cost(t)
  }

  ghost predicate SomeRoundOpen(b: Book) {
    exists n :: n in b.rounds && b.rounds[n].status == OPEN
  }

  predicate Usable(i: Invite, now: Time) {
    && i.isActive
    && (i.expiresAt.Some? ==> now < i.expiresAt.value)
    && (i.maxUses.Some? ==> i.usedCount < i.maxUses.value)
  }

  /** Why the user cannot join the Mesa, the first reason that applies; who publishes it is asked
      neither for eligibility nor for the window. */
  ghost function JoinRefusal(db: Db, id: MesaId, u: UserId, publication: bool, activePro: bool): Option<JoinError> {
    if id !in db.mesas then Some(MesaNotFound)
    else
      var m := db.mesas[id];
      if !publication && m.status != ACTIVE then Some(MesaNotOpen)
      else if !publication && !MayJoin(m.terms, activePro) then Some(NotEligible)
      else if !publication && !WindowIsOpen(m, db.now) then Some(OutsideWindow)
      else if IsFull(m) then Some(NoFreeSeat)
      else if exists p :: p in m.participants && p.userId == u then Some(AlreadyParticipates)
      else if !CanPay(db, m.terms, u) then Some(InsufficientBalance)
      else if IsLastSeat(m) && !SomeRoundOpen(db.book) then Some(NoOpenRound)
      else None
  }

  predicate OrError<T(==), E(==)>(refusal: Option<E>, done: Result<T, E>) {
    if refusal.Some? then done == Err(refusal.value) else done.Ok?
  }

  // ---- joins ----

  lemma {:induction false} SeatsInOrder(b: Book, m: Mesa)
    requires MesaOk(b, m)
    ensures ByCapacity(m.terms) && !HasFreeSeat(m) <==> IsFull(m)
  {}

  lemma {:induction false} ReadInOrder(b: Book, m: Mesa, publication: bool, activePro: bool, now: Time)
    requires MesaOk(b, m)
    ensures ReadProblem(Opened(m, publication), publication, activePro, now)
      == if !publication && m.status != ACTIVE then Some(MesaNotOpen)
         else if !publication && !MayJoin(m.terms, activePro) then Some(NotEligible)
         else if !publication && !WindowIsOpen(m, now) then Some(OutsideWindow)
         else if IsFull(m) then Some(NoFreeSeat)
         else None
  {
    SeatsInOrder(b, m);
  }

  lemma {:induction false} ParticipantInOrder(b: Book, m: Mesa, u: UserId)
    requires MesaOk(b, m)
    ensures ParticipantProblem(Find(m.participants, u))
      == if exists p :: p in m.participants && p.userId == u then Some(AlreadyParticipates) else None
  {}

  lemma {:induction false} EntryInOrder(db: Db, id: MesaId, u: UserId)
    requires Inv(db) && id in db.mesas && Find(db.mesas[id].participants, u).None?
    ensures CanPay(db, db.mesas[id].terms, u) ==> EntryPaid(db, id, db.mesas[id].terms, u).Ok?
    ensures !CanPay(db, db.mesas[id].terms, u) ==> EntryPaid(db, id, db.mesas[id].terms, u) == Err(InsufficientBalance)
  {
    EntryPaidExactly(db, id, u);
  }

  lemma {:induction false} SeatInOrder(b: Book, m: Mesa, u: UserId, scoreInitial: int, approvedAt: Time)
    requires NumbersOk(b) && MesaOk(b, m) && m.milestones.registrationClosedAt.None?
    requires !IsFull(m) && Find(m.participants, u).None?
    ensures OrError(if IsLastSeat(m) && !SomeRoundOpen(b) then Some(NoOpenRound) else None,
                    Joined(m, u, scoreInitial, approvedAt, FirstOpen(b, b.numbers)))
  {
    OpenIsFound(b);
    assert SomeRoundOpen(b) <==> exists n :: HasStatus(b, n, OPEN);
  }

  lemma {:induction false} SameForPublication(b: Book, m: Mesa, publication: bool, u: UserId)
    requires MesaOk(b, m) && (publication ==> m.status == MesaStatus.DRAFT)
    ensures IsFull(Opened(m, publication)) == IsFull(m) && IsLastSeat(Opened(m, publication)) == IsLastSeat(m)
    ensures Opened(m, publication).participants == m.participants && Opened(m, publication).terms == m.terms
    ensures MesaOk(b, Opened(m, publication))
  {
    if publication {
      PublishedMesaIsOk(b, m);
    }
  }

  lemma {:induction false} InviteInOrder(db: Db, r: Request)
    requires r.invite.Some? ==> r.invite.value in db.invites && Usable(db.invites[r.invite.value], db.now)
    ensures InviteUsed(db, r, db.now).Ok?
  {}

  /** What a join answers: the first refusal that applies, or it goes through. */
  lemma {:induction false} JoinExactly(db: Db, r: Request, activePro: bool)
    requires Inv(db) && DueOk(db)
    requires r.publication ==> r.mesa in db.mesas && db.mesas[r.mesa].status == MesaStatus.DRAFT
    requires r.invite.Some? ==> r.invite.value in db.invites && Usable(db.invites[r.invite.value], db.now)
    ensures OrError(JoinRefusal(db, r.mesa, r.userId, r.publication, activePro), JoinWhole(db, r, activePro))
  {
    if r.mesa in db.mesas {
      var m := db.mesas[r.mesa];
      ReadInOrder(db.book, m, r.publication, activePro, db.now);
      ParticipantInOrder(db.book, m, r.userId);
      var open, refused := Opened(m, r.publication), ParticipantProblem(Find(m.participants, r.userId));
      if ReadProblem(open, r.publication, activePro, db.now).None? && refused.None? {
        assert DueBy(m, db.now);
        ReadMesaIsOpen(db.book, m, r.publication, activePro, db.now);
        OnlyApproved(db.book, m, r.userId);
        SameForPublication(db.book, m, r.publication, r.userId);
        EntryInOrder(db, r.mesa, r.userId);
        SeatInOrder(db.book, open, r.userId, FoundNow(db, open, r.userId).scoreInitial, db.now);
        InviteInOrder(db, r);
      }
    }
  }

  /** The rounds that have closed before the start, or before now for a Mesa without one. */
  ghost predicate ClosedBeforeStart(b: Book, t: Terms, now: Time, rounds: set<RoundNo>) {
    forall n :: n in rounds
      <==> n in b.rounds && b.rounds[n].closeAt.Some? && b.rounds[n].closeAt.value < t.startDate.GetOr(now)
  }

  /** The row of somebody who joins: approved now, the entry paid if there is one, starting from
      what has been earned before the start. */
  function NewRow(t: Terms, u: UserId, earned: int, now: Time): Participant {
    var paid := Cost(t) > 0;
    Participant(u, APPROVED, Some(now), if paid then Cost(t) else 0, if paid then Some(now) else None, earned, None, 0,
                None, None)
  }

  /** The counters with one participant more. */
  ghost predicate CountsOneMore(m: Mesa, after: Mesa) {
    && after.counters.currentParticipants == m.counters.currentParticipants + 1
    && after.counters.grossCollected == m.counters.grossCollected + (if Cost(m.terms) > 0 then Cost(m.terms) else 0)
    && after.counters.pools
      == if Cost(m.terms) > 0
         then Pools(after.counters.grossCollected / 10, PrizeMoney(after), Some(PrizeMoney(after)))
         else m.counters.pools
  }

  /** The last seat closes the registration on a round that is open; other joins change no milestone. */
  ghost predicate ClosesWithLastSeat(b: Book, m: Mesa, after: Mesa, now: Time) {
    if IsLastSeat(m)
    then
      && after.milestones.referenceRound.Some?
      && HasStatus(b, after.milestones.referenceRound.value, OPEN)
      && after.milestones
        == m.milestones.(registrationClosedAt := Some(now), referenceRound := after.milestones.referenceRound,
          initializationStatus := Some(WAITING_FOR_REFERENCE_ROUND))
    else after.milestones == m.milestones
  }

  lemma {:induction false} RowWritten(b: Book, m: Mesa, u: UserId, earned: int, now: Time, after: Mesa)
    requires MesaOk(b, m) && m.status == ACTIVE && m.milestones.registrationClosedAt.None?
    requires Joined(m, u, earned, now, FirstOpen(b, b.numbers)) == Ok(after)
    ensures after == m.(participants := m.participants + [NewRow(m.terms, u, earned, now)],
                        counters := after.counters, milestones := after.milestones)
    ensures CountsOneMore(m, after) && ClosesWithLastSeat(b, m, after, now)
  {
    JoinAddsARow(m, u, earned, now, FirstOpen(b, b.numbers));
  }

  lemma {:induction false} EarnedBeforeStart(b: Book, t: Terms, u: UserId, now: Time, rounds: set<RoundNo>)
    requires BookOk(b) && ClosedBeforeStart(b, t, now, rounds)
    ensures GetScoreTotalBefore(b, u, t.startDate.GetOr(now)) == Earned(b.history, u, rounds, Score)
  {
    ScoreTotalBeforeIsTheSum(b, u, t.startDate.GetOr(now));
    forall n: RoundNo | true ensures n in rounds <==> n in ClosedBefore(b, t.startDate.GetOr(now)) {}
    assert rounds == ClosedBefore(b, t.startDate.GetOr(now));
  }

  lemma {:induction false} EntryWritten(db: Db, id: MesaId, t: Terms, u: UserId, wallets: map<UserId, Wallet>)
    requires EntryPaid(db, id, t, u) == Ok(wallets)
    ensures Cost(t) > 0 ==> u in db.wallets
    ensures wallets
      == if Cost(t) > 0
         then db.wallets[u := Wallet(db.wallets[u].balance - Cost(t),
                                     db.wallets[u].ledger + [LedgerEntry(DEBIT, Cost(t), Some(EntryKey(id)))])]
         else db.wallets
  {}

  /** The invite with one use more, by the user. */
  function UsedBy(i: Invite, u: UserId): Invite {
    i.(usedCount := i.usedCount + 1, usedBy := i.usedBy + [u])
  }

  /** What a join that goes through writes: the participant, the counters, with the last seat the
      milestones, the entry in wallet and ledger, and the use of the invite; nothing else. */
  lemma {:induction false} JoinWrites(db: Db, r: Request, activePro: bool, after: Db, rounds: set<RoundNo>)
    requires Inv(db) && DueOk(db) && JoinWhole(db, r, activePro) == Ok(after) && r.mesa in db.mesas
    requires r.publication ==> db.mesas[r.mesa].status == MesaStatus.DRAFT
    requires ClosedBeforeStart(db.book, db.mesas[r.mesa].terms, db.now, rounds)
    ensures r.mesa in after.mesas && (r.invite.Some? ==> r.invite.value in db.invites)
    ensures Cost(db.mesas[r.mesa].terms) > 0 ==> r.userId in db.wallets
    ensures var (m, n, u) := (db.mesas[r.mesa], after.mesas[r.mesa], r.userId);
      && n == m.(status := ACTIVE,
        participants := m.participants + [NewRow(m.terms, u, Earned(db.book.history, u, rounds, Score), db.now)],
        counters := n.counters, milestones := n.milestones)
      && CountsOneMore(m, n) && ClosesWithLastSeat(db.book, m, n, db.now)
    ensures var (m, u) := (db.mesas[r.mesa], r.userId);
      after == db.(
        mesas := db.mesas[r.mesa := after.mesas[r.mesa]],
        wallets :=
          if Cost(m.terms) > 0
          then db.wallets[u :=
            Wallet(db.wallets[u].balance - Cost(m.terms),
                   db.wallets[u].ledger + [LedgerEntry(DEBIT, Cost(m.terms), Some(EntryKey(r.mesa)))])]
          else db.wallets,
        invites :=
          if r.invite.Some? then db.invites[r.invite.value := UsedBy(db.invites[r.invite.value], u)] else db.invites)
  {
    var m, open := db.mesas[r.mesa], Opened(db.mesas[r.mesa], r.publication);
    WholeJoinParts(db, r, activePro);
    assert DueBy(m, db.now);
    ReadMesaIsOpen(db.book, m, r.publication, activePro, db.now);
    SameForPublication(db.book, m, r.publication, r.userId);
    EarnedBeforeStart(db.book, m.terms, r.userId, db.now, rounds);
    RowWritten(db.book, open, r.userId, Earned(db.book.history, r.userId, rounds, Score), db.now, after.mesas[r.mesa]);
    EntryWritten(db, r.mesa, m.terms, r.userId, after.wallets);
  }

  // ---- invites ----

  /** Whom an invite lets through without a use: a row that is not approved does not count. */
  lemma {:induction false} TakesPartExactly(m: Mesa, u: UserId)
    requires OneRowPerUser(m.participants)
    ensures TakesPart(m, u) <==> exists p :: p in m.participants && p.userId == u && p.status == APPROVED
  {
    TakesIsFound(m.participants, u);
  }

  /** What the use of an invite answers: who takes part already is let through without a use, and
      everybody else through a usable invite exactly as by a plain join. */
  lemma {:induction false} InviteExactly(db: Db, i: InviteId, u: UserId, activePro: bool)
    requires Inv(db) && DueOk(db)
    ensures i !in db.invites ==> UseInviteWhole(db, i, u, activePro) == Err(InviteNotFound)
    ensures i in db.invites ==> db.invites[i].mesa in db.mesas
    ensures i in db.invites && (exists p :: p in db.mesas[db.invites[i].mesa].participants && p.userId == u) ==>
      UseInviteWhole(db, i, u, activePro) == Ok(db)
    ensures i in db.invites && !(exists p :: p in db.mesas[db.invites[i].mesa].participants && p.userId == u) ==>
      var (id, used) := (db.invites[i].mesa, UseInviteWhole(db, i, u, activePro));
      && (!Usable(db.invites[i], db.now) ==> used == Err(InviteUnavailable))
      && (Usable(db.invites[i], db.now) ==>
        && used == JoinWhole(db, Request(id, u, false, Some(i)), activePro)
        && OrError(JoinRefusal(db, id, u, false, activePro), used))
  {
    if i in db.invites {
      assert InviteOk(db.invites[i], db.mesas);
      var m := db.mesas[db.invites[i].mesa];
      TakesIsFound(m.participants, u);
      assert TakesPart(m, u) <==> exists p :: p in m.participants && p.userId == u by {
        assert MesaOk(db.book, m);
      }
      if Usable(db.invites[i], db.now) {
        JoinExactly(db, Request(db.invites[i].mesa, u, false, Some(i)), activePro);
      }
    }
  }

  // ---- publication ----

  /** Why a Mesa cannot be published by the user; an administrator's Mesa is published without its
      creator joining. */
  ghost function PublicationRefusal(db: Db, id: MesaId, u: UserId, activePro: bool): Option<JoinError> {
    if id !in db.mesas then Some(MesaNotFound)
    else
      var m := db.mesas[id];
      if m.terms.createdBy != u then Some(NotEligible)
      else if m.status != MesaStatus.DRAFT then Some(MesaNotOpen)
      else if m.terms.createdByAdmin then None
      else if m.terms.category == PAID && !activePro then Some(NotEligible)
      else if !CanPay(db, m.terms, u) then Some(InsufficientBalance)
      else None
  }

  lemma {:induction false} DraftHasSeats(b: Book, m: Mesa)
    requires MesaOk(b, m) && m.status == MesaStatus.DRAFT
    ensures m.participants == [] && !IsFull(m) && !IsLastSeat(m)
  {}

  /** What a publication answers. A draft always has a seat for its creator. */
  lemma {:induction false} PublicationExactly(db: Db, id: MesaId, u: UserId, activePro: bool)
    requires Inv(db) && DueOk(db)
    ensures OrError(PublicationRefusal(db, id, u, activePro), PublishWhole(db, id, u, activePro))
    ensures PublishWhole(db, id, u, activePro).Ok? ==>
      && id in db.mesas
      && PublishWhole(db, id, u, activePro)
        == if db.mesas[id].terms.createdByAdmin
           then Ok(db.(mesas := db.mesas[id := db.mesas[id].(status := ACTIVE)]))
           else JoinWhole(db, Request(id, u, true, None), activePro)
  {
    if id in db.mesas && db.mesas[id].status == MesaStatus.DRAFT {
      DraftHasSeats(db.book, db.mesas[id]);
      JoinExactly(db, Request(id, u, true, None), activePro);
    }
  }

  // ---- saved and published in one transaction ----

  /** The form is saved and published, or neither: each refuses for its own reason. */
  lemma {:induction false} SavedAndPublished(db: Db, id: MesaId, saved: Result<Mesa, CreationError>, u: UserId,
                                             activePro: bool)
    requires saved.Ok? ==> Inv(WithMesa(db, id, saved.value)) && DueOk(WithMesa(db, id, saved.value))
    ensures var done := PublishedNow(db, id, saved, u, activePro);
      && (saved.Err? ==> done == Err(NotSaved(saved.error)))
      && (saved.Ok? ==>
        var refusal := PublicationRefusal(WithMesa(db, id, saved.value), id, u, activePro);
        if refusal.Some? then done == Err(NotPublished(refusal.value))
        else done.Ok? && PublishWhole(WithMesa(db, id, saved.value), id, u, activePro) == Ok(done.value))
  {
    if saved.Ok? {
      PublicationExactly(WithMesa(db, id, saved.value), id, u, activePro);
    }
  }

  /** Can the creator pay for the seat that publishing takes? An administrator takes none. */
  predicate CreatorPays(db: Db, f: CreateInput, activePro: bool) {
    || f.administrative
    || (&& (CategoryOf(f) == PAID ==> activePro)
        && (CostOf(f) > 0 ==> f.createdBy in db.wallets && db.wallets[f.createdBy].balance >= CostOf(f)))
  }

  lemma {:induction false} NewMesaIsInOrder(db: Db, id: MesaId, f: CreateInput, ctx: CreateContext, m: Mesa)
    requires Inv(db) && DueOk(db) && id !in db.mesas && CreateMesa(f, ctx) == Ok(m)
    ensures Inv(WithMesa(db, id, m)) && DueOk(WithMesa(db, id, m))
  {
    CreatedMesaIsOk(db.book, f, ctx, m);
    DraftIsNew(db.book, m);
    NewMesaIsUnknown(db, id, m);
    assert DueBy(m, db.now);
  }

  lemma {:induction false} DraftRefusal(db: Db, id: MesaId, m: Mesa, activePro: bool)
    requires m.status == MesaStatus.DRAFT
    ensures PublicationRefusal(WithMesa(db, id, m), id, m.terms.createdBy, activePro).None?
      <==> (|| m.terms.createdByAdmin
            || ((m.terms.category == PAID ==> activePro) && CanPay(db, m.terms, m.terms.createdBy)))
  {}

  lemma {:induction false} NewDraftRefusal(db: Db, id: MesaId, f: CreateInput, ctx: CreateContext, m: Mesa,
                                           activePro: bool)
    requires CreateMesa(f, ctx) == Ok(m)
    ensures PublicationRefusal(WithMesa(db, id, m), id, f.createdBy, activePro).None? <==> CreatorPays(db, f, activePro)
  {
    CreatedMesaIs(f, ctx, m);
    DraftRefusal(db, id, m, activePro);
    assert Cost(m.terms) == CostOf(f);
  }

  lemma {:induction false} CreatorJoins(db: Db, id: MesaId, u: UserId, activePro: bool)
    requires Inv(db) && DueOk(db) && id in db.mesas && db.mesas[id].status == MesaStatus.DRAFT
    requires db.mesas[id].participants == [] && JoinWhole(db, Request(id, u, true, None), activePro).Ok?
    ensures var after := JoinWhole(db, Request(id, u, true, None), activePro).value;
      && id in after.mesas && after.mesas[id].status == ACTIVE && after.mesas[id].terms == db.mesas[id].terms
      && |after.mesas[id].participants| == 1
      && after.mesas[id].participants[0].userId == u && after.mesas[id].participants[0].status == APPROVED
  {
    var rounds := ClosedBefore(db.book, db.mesas[id].terms.startDate.GetOr(db.now));
    JoinWrites(db, Request(id, u, true, None), activePro,
               JoinWhole(db, Request(id, u, true, None), activePro).value, rounds);
  }

  lemma {:induction false} NewMesaIsPublished(db: Db, id: MesaId, f: CreateInput, ctx: CreateContext, m: Mesa,
                                              activePro: bool)
    requires Inv(db) && DueOk(db) && id !in db.mesas && CreateMesa(f, ctx) == Ok(m)
    ensures PublishedNow(db, id, Ok(m), f.createdBy, activePro).Ok? <==> CreatorPays(db, f, activePro)
  {
    NewMesaIsInOrder(db, id, f, ctx, m);
    SavedAndPublished(db, id, Ok(m), f.createdBy, activePro);
    NewDraftRefusal(db, id, f, ctx, m, activePro);
  }

  /** A Mesa is created and published at once exactly from an admitted form whose creator can pay
      for a seat. */
  lemma {:induction false} CreatedNowExactly(db: Db, id: MesaId, f: CreateInput, ctx: CreateContext, activePro: bool)
    requires Inv(db) && DueOk(db) && id !in db.mesas
    ensures PublishedNow(db, id, CreateMesa(f, ctx), f.createdBy, activePro).Ok?
      <==> FormAdmitted(f, ctx) && f.startDate >= ctx.startOfToday && CreatorPays(db, f, activePro)
  {
    CreatedExactly(f, ctx);
    if CreateMesa(f, ctx).Ok? {
      NewMesaIsPublished(db, id, f, ctx, CreateMesa(f, ctx).value, activePro);
    }
  }

  lemma {:induction false} PublishedMesaIs(db: Db, id: MesaId, u: UserId, activePro: bool, after: Db)
    requires Inv(db) && DueOk(db) && id in db.mesas && db.mesas[id].participants == []
    requires PublishWhole(db, id, u, activePro) == Ok(after)
    ensures var m := db.mesas[id];
      && id in after.mesas && after.mesas[id].status == ACTIVE && after.mesas[id].terms == m.terms
      && (m.terms.createdByAdmin ==> after == db.(mesas := db.mesas[id := m.(status := ACTIVE)]))
      && (!m.terms.createdByAdmin ==>
        && |after.mesas[id].participants| == 1
        && after.mesas[id].participants[0].userId == u && after.mesas[id].participants[0].status == APPROVED)
  {
    PublicationExactly(db, id, u, activePro);
    if !db.mesas[id].terms.createdByAdmin {
      CreatorJoins(db, id, u, activePro);
    }
  }

  /** Then it is active, with its creator -- or, by an administrator, nobody -- in it. */
  lemma {:induction false} CreatedNowIs(db: Db, id: MesaId, f: CreateInput, ctx: CreateContext, activePro: bool,
                                        after: Db)
    requires Inv(db) && DueOk(db) && id !in db.mesas
    requires PublishedNow(db, id, CreateMesa(f, ctx), f.createdBy, activePro) == Ok(after)
    ensures id in after.mesas && after.mesas[id].status == ACTIVE
    ensures after.mesas[id].terms == TermsOf(f, f.createdBy, f.administrative)
    ensures f.administrative ==> after == db.(mesas := after.mesas) && after.mesas[id].participants == []
    ensures !f.administrative ==>
      && |after.mesas[id].participants| == 1
      && after.mesas[id].participants[0].userId == f.createdBy && after.mesas[id].participants[0].status == APPROVED
  {
    var m := CreateMesa(f, ctx).value;
    NewMesaIsInOrder(db, id, f, ctx, m);
    CreatedMesaIs(f, ctx, m);
    PublishedMesaIs(WithMesa(db, id, m), id, f.createdBy, activePro, after);
  }

  // ---- new invites ----

  /** A new invite admits to its Mesa until it expires, and nobody has used it. */
  lemma {:induction false} NewInviteIsUsable(db: Db, i: InviteId, id: MesaId, maxUses: Option<int>,
                                             expiresAt: Option<Time>)
    requires Enabled(db, InviteCreated(i, id, maxUses, expiresAt))
    ensures var after := Apply(db, InviteCreated(i, id, maxUses, expiresAt));
      && i in after.invites && after == db.(invites := db.invites[i := after.invites[i]])
      && after.invites[i].mesa == id && after.invites[i].usedBy == [] && after.invites[i].maxUses == maxUses
      && (Usable(after.invites[i], db.now) <==> (expiresAt.Some? ==> db.now < expiresAt.value))
  {}
}
