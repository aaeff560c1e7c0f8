/** The services as they are written: transactions that update the tables statement by
    statement and roll back when one of them fails. */
module Services {
  import opened Collections
  import opened Tiebreak
  import opened Prize
  import opened PrizeLaws
  import opened Domain
  import opened MesaRules
  import opened MesaIntegrity
  import opened Book
  import opened BookRun
  import opened Window
  import opened Wallets
  import opened Join
  import opened Lifecycle
  import opened Settlement
  import opened Competition
  import opened Operations

  class Database {
    var now: Time
    var book: Book
    var wallets: map<UserId, Wallet>
    var mesas: map<MesaId, Mesa>
    var invites: map<InviteId, Invite>
    var settlements: map<MesaId, Settlement>

    function View(): Db
      reads this
    {
      Db(now, book, wallets, mesas, invites, settlements)
    }

    constructor ()
      ensures View() == EMPTY
    {
      now, book, wallets, mesas, invites, settlements := 0, EMPTY_BOOK, map[], map[], map[], map[];
    }

    /** What a failed transaction leaves behind. */
    method Rollback(saved: Db)
      modifies this
      ensures View() == saved
    {
      now, book, wallets := saved.now, saved.book, saved.wallets;
      mesas, invites, settlements := saved.mesas, saved.invites, saved.settlements;
    }

    // ---- bolao-entry-payment ----

    /** The guarded decrement, then the ledger row, which the table may refuse. */
    method Debit(id: MesaId, u: UserId, amount: int) returns (error: Option<JoinError>)
      modifies this`wallets
      ensures error.None? <==>
        u in old(wallets) && Debited(old(wallets[u]), amount, Some(EntryKey(id))).Some?
      ensures error.None? ==> wallets == old(wallets)[u := Debited(old(wallets[u]), amount, Some(EntryKey(id))).value]
      ensures error == Some(InsufficientBalance) <==> u !in old(wallets) || old(wallets[u]).balance < amount
      ensures error.Some? ==> error.value == InsufficientBalance || error.value == LedgerRefused
    {
      if u !in wallets || wallets[u].balance < amount {
        return Some(InsufficientBalance);
      }
      wallets := wallets[u := wallets[u].(balance := wallets[u].balance - amount)];
      var wallet := wallets[u];
      if amount <= 0 || KeyCount(wallet.ledger, EntryKey(id)) > 0 {
        return Some(LedgerRefused);
      }
      wallets := wallets[u := wallet.(ledger := wallet.ledger + [LedgerEntry(DEBIT, amount, Some(EntryKey(id)))])];
      return None;
    }

    // ---- bolao-invite-reservation ----

    method ReserveInviteUse(i: InviteId, at: Time) returns (usedCount: Option<int>)
      requires i in invites
      modifies this`invites
      ensures usedCount.Some? <==>
        && old(invites[i]).isActive
        && (old(invites[i]).expiresAt.Some? ==> old(invites[i]).expiresAt.value > at)
        && (old(invites[i]).maxUses.Some? ==> old(invites[i]).usedCount < old(invites[i]).maxUses.value)
      ensures usedCount.Some? ==>
        && usedCount.value == old(invites[i]).usedCount + 1
        && invites == old(invites)[i := old(invites[i]).(usedCount := usedCount.value)]
      ensures usedCount.None? ==> invites == old(invites)
    {
      var invite := invites[i];
      if !invite.isActive || (invite.expiresAt.Some? && invite.expiresAt.value <= at)
         || (invite.maxUses.Some? && invite.usedCount >= invite.maxUses.value) {
        return None;
      }
      invite := invite.(usedCount := invite.usedCount + 1);
      invites := invites[i := invite];
      return Some(invite.usedCount);
    }

    // ---- join-bolao ----

    /** The guarded increment of the seats, and the closing that comes with the last one. */
    method TakeSeat(id: MesaId, approvedAt: Time) returns (error: Option<JoinError>)
      requires id in mesas
      modifies this`mesas
      ensures var (m, open) := (old(mesas[id]), FirstOpen(book, book.numbers));
        var reserved := ReserveSeat(m.terms, m.counters);
        if reserved.None? then error == Some(CapacityReached)
        else
          var closed := CloseIfFull(m.terms, reserved.value, m.milestones, open, approvedAt);
          if closed.None? then error == Some(NoOpenRound)
          else error == None && mesas == old(mesas)[id := m.(counters := reserved.value, milestones := closed.value)]
    {
      var bolao := mesas[id];
      var hasPaidEntry, max := HasPaidEntry(bolao.terms), bolao.terms.maxParticipants;
      if max.None? || bolao.counters.currentParticipants >= max.value {
        return Some(CapacityReached);
      }
      var counters := bolao.counters.(currentParticipants := bolao.counters.currentParticipants + 1);
      if hasPaidEntry {
        counters := counters.(grossCollected := counters.grossCollected + AccessCost(bolao.terms));
      }
      mesas := mesas[id := bolao.(counters := counters)];
      var reserved := mesas[id];
      if Some(reserved.counters.currentParticipants) == max && reserved.milestones.registrationClosedAt.None? {
        var referenceRound := FirstOpen(book, book.numbers);
        if referenceRound.None? {
          return Some(NoOpenRound);
        }
        if reserved.milestones.referenceRound.None? {
          mesas := mesas[id := reserved.(milestones := reserved.milestones.(
            registrationClosedAt := Some(approvedAt), referenceRound := referenceRound,
            initializationStatus := Some(WAITING_FOR_REFERENCE_ROUND), scoreInitialCapturedAt := None))];
        }
      }
      return None;
    }

    method EnrollParticipant(id: MesaId, u: UserId, existing: Option<Participant>, scoreInitial: int, approvedAt: Time)
      requires id in mesas && existing == Find(mesas[id].participants, u)
      modifies this`mesas
      ensures var m := old(mesas[id]);
        mesas == old(mesas)[id := m.(participants :=
          Upsert(m.participants, Enrolled(m.terms, existing, u, scoreInitial, approvedAt)))]
    {
      var bolao := mesas[id];
      var paid := HasPaidEntry(bolao.terms);
      var entryFeePaid := if paid then AccessCost(bolao.terms) else 0;
      var entryPaidAt := if paid then Some(approvedAt) else None;
      match existing {
        case Some(p) =>
          var updated := p.(status := APPROVED, scoreInitial := scoreInitial, approvedAt := Some(approvedAt),
                            entryFeePaid := entryFeePaid, entryPaidAt := entryPaidAt);
          var index := IndexOf(bolao.participants, u).value;
          mesas := mesas[id := bolao.(participants := bolao.participants[index := updated])];
        case None =>
          var created := Participant(u, APPROVED, Some(approvedAt), entryFeePaid, entryPaidAt, scoreInitial, None, 0,
                                     None, None);
          mesas := mesas[id := bolao.(participants := bolao.participants + [created])];
      }
    }

    method UpdateFinances(id: MesaId)
      requires id in mesas
      modifies this`mesas
      ensures var m := old(mesas[id]);
        mesas == old(mesas)[id := m.(counters :=
          UpdateTotals(m.terms, if ByCapacity(m.terms) then m.counters else CountSeat(m.terms, m.counters)))]
    {
      var bolao := mesas[id];
      var hasPaidEntry, counters := HasPaidEntry(bolao.terms), bolao.counters;
      if !ByCapacity(bolao.terms) {
        counters := counters.(currentParticipants := counters.currentParticipants + 1);
        if hasPaidEntry {
          counters := counters.(grossCollected := counters.grossCollected + AccessCost(bolao.terms));
        }
      }
      if hasPaidEntry {
        var totals := CalculatePool(counters.grossCollected);
        var rewardPool := totals.prizePool
          + (if bolao.terms.category == SPONSORED_FREE then bolao.terms.sponsorPrizePool else 0);
        counters := counters.(pools := Pools(totals.platformFee, rewardPool, Some(rewardPool)));
      }
      mesas := mesas[id := bolao.(counters := counters)];
    }

    /** The statements that write the Mesa and the participant. */
    method WriteJoin(id: MesaId, u: UserId, existing: Option<Participant>,
                     scoreInitial: int) returns (error: Option<JoinError>)
      requires id in mesas && existing == Find(mesas[id].participants, u) && ParticipantProblem(existing).None?
      modifies this`mesas
      ensures var joined := Joined(old(mesas[id]), u, scoreInitial, now, FirstOpen(book, book.numbers));
        if joined.Err? then error == Some(joined.error) else error == None && mesas == old(mesas)[id := joined.value]
    {
      if ByCapacity(mesas[id].terms) {
        error := TakeSeat(id, now);
        if error.Some? {
          return;
        }
      }
      EnrollParticipant(id, u, existing, scoreInitial, now);
      UpdateFinances(id);
      return None;
    }

    /** The checks on what is read, and the entry. */
    method CheckAndPay(r: Request, activePro: bool) returns (error: Option<JoinError>, scoreInitial: int)
      requires r.mesa in mesas
      modifies this`wallets
      ensures var m := mesas[r.mesa];
        var problem, refused :=
          ReadProblem(m, r.publication, activePro, now), ParticipantProblem(Find(m.participants, r.userId));
        var paid := EntryPaid(old(View()), r.mesa, m.terms, r.userId);
        if problem.Some? then error == problem
        else if refused.Some? then error == refused
        else if paid.Err? then error == Some(paid.error)
        else
          && error == None && wallets == paid.value
          && scoreInitial == GetScoreTotalBefore(book, r.userId, BaselineAt(m, now))
    {
      var bolao := mesas[r.mesa];
      scoreInitial := 0;
      error := ReadProblem(bolao, r.publication, activePro, now);
      if error.Some? {
        return;
      }
      error := ParticipantProblem(Find(bolao.participants, r.userId));
      if error.Some? {
        return;
      }
      scoreInitial := GetScoreTotalBefore(book, r.userId, BaselineAt(bolao, now));
      if HasPaidEntry(bolao.terms) {
        error := Debit(r.mesa, r.userId, AccessCost(bolao.terms));
      }
    }

    /** `executeInTransaction`; the caller rolls back when it fails. */
    method JoinStatements(r: Request, activePro: bool) returns (error: Option<JoinError>)
      requires r.invite.None?
      modifies this`wallets, this`mesas
      ensures var whole := JoinWhole(old(View()), r, activePro);
        if whole.Err? then error == Some(whole.error) else error == None && View() == whole.value
    {
      if r.mesa !in mesas {
        return Some(MesaNotFound);
      }
      if r.publication {
        mesas := mesas[r.mesa := mesas[r.mesa].(status := ACTIVE)];
      }
      assert mesas[r.mesa] == Opened(old(mesas[r.mesa]), r.publication);
      var scoreInitial;
      error, scoreInitial := CheckAndPay(r, activePro);
      if error.Some? {
        return;
      }
      error := WriteJoin(r.mesa, r.userId, Find(mesas[r.mesa].participants, r.userId), scoreInitial);
    }

    method Join(r: Request, activePro: bool) returns (error: Option<JoinError>)
      requires r.invite.None?
      modifies this
      ensures var whole := JoinWhole(old(View()), r, activePro);
        if whole.Err? then error == Some(whole.error) && View() == old(View())
        else error == None && View() == whole.value
    {
      var saved := View();
      error := JoinStatements(r, activePro);
      if error.Some? {
        Rollback(saved);
      }
    }

    // ---- use-bolao-invite ----

    method UseInvite(i: InviteId, u: UserId, activePro: bool) returns (error: Option<JoinError>)
      modifies this
      ensures var whole := UseInviteWhole(old(View()), i, u, activePro);
        if whole.Err? then error == Some(whole.error) && View() == old(View())
        else error == None && View() == whole.value
    {
      var saved := View();
      if i !in invites {
        return Some(InviteNotFound);
      }
      var id := invites[i].mesa;
      if id in mesas && TakesPart(mesas[id], u) {
        return None;
      }
      var usedCount := ReserveInviteUse(i, now);
      if usedCount.None? {
        return Some(InviteUnavailable);
      }
      JoinSetsInviteAside(saved, i, u, activePro);
      error := JoinStatements(Request(id, u, false, None), activePro);
      if error.Some? {
        Rollback(saved);
        return;
      }
      invites := invites[i := invites[i].(usedBy := invites[i].usedBy + [u])];
    }

    // ---- publish-mesa ----

    method Publish(id: MesaId, requestedBy: UserId, activePro: bool) returns (error: Option<JoinError>)
      modifies this
      ensures var whole := PublishWhole(old(View()), id, requestedBy, activePro);
        if whole.Err? then error == Some(whole.error) && View() == old(View())
        else error == None && View() == whole.value
    {
      if id !in mesas {
        return Some(MesaNotFound);
      }
      var mesa := mesas[id];
      if mesa.terms.createdBy != requestedBy {
        return Some(NotEligible);
      }
      if mesa.status != MesaStatus.DRAFT {
        return Some(MesaNotOpen);
      }
      var administrativeCreation := mesa.terms.createdByAdmin;
      if mesa.terms.category == PAID && !administrativeCreation && !activePro {
        return Some(NotEligible);
      }
      if administrativeCreation {
        mesas := mesas[id := mesa.(status := ACTIVE)];
        return None;
      }
      error := Join(Request(id, requestedBy, true, None), activePro);
    }

    // ---- create-bolao ----

    /** The checks before the prizes, in the order in which the service makes them. */
    static method CheckCreation(input: CreateInput, context: CreateContext, terms: CategoryTerms)
      returns (error: Option<CreationError>)
      ensures error.Some? ==> CreationProblem(input, context, terms) == error
      ensures error.None? ==> CreationProblem(input, context, terms) == CreationProblemOfPrizes(input, context, terms)
    {
      error := ScheduleError(terms.registrationCloseMode, input.durationMode.GetOr(ROUNDS), input.entryEndDate,
                             input.endDate, terms.maxParticipants, input.durationRounds);
      if error.Some? {
        return;
      }
      if terms.category != FREE {
        var length := |Trim(input.description)|;
        if length < PRIZE_RULES_MIN_LENGTH || length > PRIZE_RULES_MAX_LENGTH {
          return Some(PrizeRulesInvalid);
        }
      }
      if !context.userExists {
        return Some(UserNotFound);
      }
      if terms.category == SPONSORED_FREE && !input.administrative {
        return Some(SponsoredAdminOnly);
      }
      if terms.category == PAID && !input.administrative && !context.activePro {
        return Some(ProRequired);
      }
      if |Trim(input.name)| < 3 {
        return Some(NameTooShort);
      }
      if input.entryEndDate.Some? && input.entryEndDate.value <= input.startDate {
        return Some(EntryEndBeforeStart);
      }
      if input.endDate.Some? && input.endDate.value <= input.entryEndDate.GetOr(input.startDate) {
        return Some(EndBeforeEntryEnd);
      }
    }

    /** The checks from the prizes on, the last one by the database; `prizes` are validated, and
        empty for a free Mesa. */
    static method CheckPrizes(input: CreateInput, context: CreateContext, terms: CategoryTerms)
      returns (error: Option<CreationError>, prizes: seq<Item>)
      ensures error == CreationProblemOfPrizes(input, context, terms)
      ensures error.None? ==> AsJson(prizes) == StoredDistribution(input.prizeDistribution, terms.category)
    {
      error, prizes := None, [];
      if terms.category != FREE {
        var distribution := ValidateDistribution(input.prizeDistribution);
        if distribution.Err? {
          return Some(InvalidDistribution), prizes;
        }
        prizes := distribution.value;
      }
      if input.endDate.Some? && input.endDate.value <= context.now {
        return Some(CreationError.AlreadyClosed), prizes;
      }
      if input.publishAtStart && input.startDate <= context.now {
        return Some(PublicationDateInvalid), prizes;
      }
      if terms.category != FREE && terms.maxParticipants.Some? && |prizes| > terms.maxParticipants.value {
        return Some(MorePrizesThanSeats), prizes;
      }
      if input.durationMode.GetOr(ROUNDS) == ROUNDS && input.durationRounds.GetOr(0) <= 0 {
        return Some(RejectedByDatabase), prizes;
      }
      assert AsJson([]) == Array([]);
    }

    /** What a new Mesa shows as collected and as prizes. */
    static method EmptyPools(terms: CategoryTerms) returns (counters: Counters)
      ensures counters == NewCounters(terms)
    {
      var emptyPool := CalculatePool(0);
      var prizePool := if terms.category == SPONSORED_FREE then terms.sponsorPrizePool else emptyPool.prizePool;
      counters := Counters(0, 0, Pools(emptyPool.platformFee, prizePool, Some(prizePool)));
    }

    /** The row of a new Mesa. */
    method InsertMesa(id: MesaId, input: CreateInput, terms: CategoryTerms, description: string, prizes: seq<Item>)
      requires id !in mesas
      modifies this`mesas
      ensures mesas == old(mesas)[id :=
        NewMesa(NewTerms(input, terms, description, AsJson(prizes)), NewCounters(terms), input.endDate)]
    {
      var counters := EmptyPools(terms);
      var columns := Terms(
        createdBy := input.createdBy, createdByAdmin := input.administrative, category := terms.category,
        eligibility := input.eligibility.GetOr(SUBSCRIBERS_ONLY), registrationCloseMode := terms.registrationCloseMode,
        durationMode := input.durationMode.GetOr(ROUNDS), durationRounds := input.durationRounds,
        description := description, entryFee := terms.accessCost, accessCost := Some(terms.accessCost),
        sponsorPrizePool := terms.sponsorPrizePool, prizeDistribution := AsJson(prizes),
        maxParticipants := terms.maxParticipants, startDate := Some(input.startDate),
          entryEndDate := input.entryEndDate);
      var milestones := Milestones(None, None, Some(WAITING_FOR_REGISTRATION_CLOSE), None, input.endDate);
      mesas := mesas[id := Mesa(columns, MesaStatus.DRAFT, None, counters, milestones, [])];
    }

    /** The checks, in the order in which the service makes them, then the row. */
    method Create(id: MesaId, input: CreateInput, context: CreateContext) returns (error: Option<CreationError>)
      requires id !in mesas
      modifies this`mesas
      ensures var created := CreateMesa(input, context);
        if created.Err? then error == Some(created.error) && mesas == old(mesas)
        else error == None && mesas == old(mesas)[id := created.value]
    {
      if input.startDate < context.startOfToday {
        return Some(StartDateInPast);
      }
      var validated := ValidateTerms(input.terms);
      if validated.Err? {
        return Some(validated.error);
      }
      var terms := validated.value;
      error := CheckCreation(input, context, terms);
      if error.Some? {
        return;
      }
      var prizes;
      error, prizes := CheckPrizes(input, context, terms);
      if error.None? {
        InsertMesa(id, input, terms, Trim(input.description), prizes);
      }
    }

    /** Creation and publication in one transaction. */
    method CreateNow(id: MesaId, input: CreateInput, context: CreateContext, activePro: bool)
      returns (error: Option<NowError>)
      requires id !in mesas && !input.publishAtStart
      modifies this
      ensures var whole := PublishedNow(old(View()), id, CreateMesa(input, context), input.createdBy, activePro);
        if whole.Err? then error == Some(whole.error) && View() == old(View())
        else error == None && View() == whole.value
    {
      var saved := View();
      var refused := Create(id, input, context);
      if refused.Some? {
        return Some(NotSaved(refused.value));
      }
      var unpublished := Publish(id, input.createdBy, activePro);
      if unpublished.Some? {
        Rollback(saved);
        return Some(NotPublished(unpublished.value));
      }
      return None;
    }

    // ---- update-mesa ----

    /** The checks between the terms and the prizes, in the order of the editing service. */
    static method CheckEdit(input: CreateInput, context: CreateContext, terms: CategoryTerms)
      returns (error: Option<CreationError>)
      ensures error.Some? ==> EditProblem(input, context, terms) == error
      ensures error.None? ==> EditProblem(input, context, terms) == EditProblemOfPrizes(input, context, terms)
    {
      error := ScheduleError(terms.registrationCloseMode, input.durationMode.GetOr(ROUNDS), input.entryEndDate,
                             input.endDate, terms.maxParticipants, input.durationRounds);
      if error.Some? {
        return;
      }
      if !context.userExists {
        return Some(UserNotFound);
      }
      if terms.category == SPONSORED_FREE && !input.administrative {
        return Some(SponsoredAdminOnly);
      }
      if terms.category == PAID && !input.administrative && !context.activePro {
        return Some(ProRequired);
      }
      if terms.category != FREE {
        var length := |Trim(input.description)|;
        if length < PRIZE_RULES_MIN_LENGTH || length > PRIZE_RULES_MAX_LENGTH {
          return Some(PrizeRulesInvalid);
        }
      }
      if |Trim(input.name)| < 3 {
        return Some(NameTooShort);
      }
      if input.entryEndDate.Some? && input.entryEndDate.value <= input.startDate {
        return Some(EntryEndBeforeStart);
      }
      if input.endDate.Some? && input.endDate.value <= input.entryEndDate.GetOr(input.startDate) {
        return Some(EndBeforeEntryEnd);
      }
    }

    /** The checks from the prizes on, the last one by the database. */
    static method CheckEditedPrizes(input: CreateInput, context: CreateContext, terms: CategoryTerms)
      returns (error: Option<CreationError>, prizes: seq<Item>)
      ensures error == EditProblemOfPrizes(input, context, terms)
      ensures error.None? ==> AsJson(prizes) == StoredDistribution(input.prizeDistribution, terms.category)
    {
      error, prizes := None, [];
      if input.endDate.Some? && input.endDate.value <= context.now {
        return Some(CreationError.AlreadyClosed), prizes;
      }
      if terms.category != FREE {
        var distribution := ValidateDistribution(input.prizeDistribution);
        if distribution.Err? {
          return Some(InvalidDistribution), prizes;
        }
        prizes := distribution.value;
      }
      if terms.category != FREE && terms.maxParticipants.Some? && |prizes| > terms.maxParticipants.value {
        return Some(MorePrizesThanSeats), prizes;
      }
      if input.publishAtStart && input.startDate <= context.now {
        return Some(PublicationDateInvalid), prizes;
      }
      if input.durationMode.GetOr(ROUNDS) == ROUNDS && input.durationRounds.GetOr(0) <= 0 {
        return Some(RejectedByDatabase), prizes;
      }
      assert AsJson([]) == Array([]);
    }

    /** The columns that editing writes on the row of a draft. */
    method UpdateRow(id: MesaId, input: CreateInput, terms: CategoryTerms, prizes: seq<Item>)
      requires id in mesas && AsJson(prizes) == StoredDistribution(input.prizeDistribution, terms.category)
      modifies this`mesas
      ensures mesas == old(mesas)[id := Edited(old(mesas[id]), input, terms)]
    {
      var mesa := mesas[id];
      var counters := EmptyPools(terms);
      var columns := mesa.terms.(
        category := terms.category, eligibility := input.eligibility.GetOr(SUBSCRIBERS_ONLY),
        registrationCloseMode := terms.registrationCloseMode, durationMode := input.durationMode.GetOr(ROUNDS),
        durationRounds := input.durationRounds, description := Trim(input.description), entryFee := terms.accessCost,
        accessCost := Some(terms.accessCost), sponsorPrizePool := terms.sponsorPrizePool,
        prizeDistribution := AsJson(prizes), maxParticipants := terms.maxParticipants,
        startDate := Some(input.startDate), entryEndDate := input.entryEndDate);
      mesas := mesas[id := mesa.(
        terms := columns, counters := counters.(currentParticipants := mesa.counters.currentParticipants),
        milestones := mesa.milestones.(endDate := input.endDate))];
    }

    /** The checks on the draft, on its new terms and on the prizes, then the row. */
    method Update(id: MesaId, input: CreateInput, context: CreateContext) returns (error: Option<CreationError>)
      requires id in mesas
      modifies this`mesas
      ensures var edited := EditDraft(old(mesas[id]), input, context);
        if edited.Err? then error == Some(edited.error) && mesas == old(mesas)
        else error == None && mesas == old(mesas)[id := edited.value]
    {
      var mesa := mesas[id];
      if !input.administrative && mesa.terms.createdBy != input.createdBy {
        return Some(NotTheOwner);
      }
      if mesa.status != MesaStatus.DRAFT {
        return Some(NotADraft);
      }
      if mesa.terms.startDate != Some(input.startDate) && input.startDate < context.startOfToday {
        return Some(StartDateInPast);
      }
      var validated := ValidateTerms(input.terms);
      if validated.Err? {
        return Some(validated.error);
      }
      var terms := validated.value;
      error := CheckEdit(input, context, terms);
      if error.Some? {
        return;
      }
      var prizes;
      error, prizes := CheckEditedPrizes(input, context, terms);
      if error.None? {
        UpdateRow(id, input, terms, prizes);
      }
    }

    /** Editing and publication in one transaction. */
    method UpdateNow(id: MesaId, input: CreateInput, context: CreateContext, activePro: bool)
      returns (error: Option<NowError>)
      requires id in mesas && !input.publishAtStart
      modifies this
      ensures
        var whole :=
          PublishedNow(old(View()), id, EditDraft(old(mesas[id]), input, context), input.createdBy, activePro);
        if whole.Err? then error == Some(whole.error) && View() == old(View())
        else error == None && View() == whole.value
    {
      var saved := View();
      var refused := Update(id, input, context);
      if refused.Some? {
        return Some(NotSaved(refused.value));
      }
      var unpublished := Publish(id, input.createdBy, activePro);
      if unpublished.Some? {
        Rollback(saved);
        return Some(NotPublished(unpublished.value));
      }
      return None;
    }

    // ---- admin-wallet-credit ----

    method AdminCredit(u: UserId, amount: int) returns (ok: bool)
      modifies this`wallets
      ensures ok <==> amount > 0
      ensures wallets
        == if ok then old(wallets)[u := Append(WalletOf(old(wallets), u), LedgerEntry(CREDIT, amount, None))]
           else old(wallets)
    {
      if amount <= 0 {
        return false;
      }
      if u !in wallets {
        wallets := wallets[u := NEW_WALLET];
      }
      wallets := wallets[u := wallets[u].(balance := wallets[u].balance + amount)];
      wallets := wallets[u := wallets[u].(ledger := wallets[u].ledger + [LedgerEntry(CREDIT, amount, None)])];
      return true;
    }

    method AdminDebit(u: UserId, amount: int) returns (ok: bool)
      modifies this`wallets
      ensures ok <==> amount > 0 && u in old(wallets) && old(wallets[u]).balance >= amount
      ensures wallets
        == if ok then old(wallets)[u := Append(old(wallets[u]), LedgerEntry(DEBIT, amount, None))] else old(wallets)
    {
      if amount <= 0 || u !in wallets || wallets[u].balance < amount {
        return false;
      }
      wallets := wallets[u := wallets[u].(balance := wallets[u].balance - amount)];
      wallets := wallets[u := wallets[u].(ledger := wallets[u].ledger + [LedgerEntry(DEBIT, amount, None)])];
      return true;
    }

    // ---- mesa-lifecycle ----

    method CloseDueRegistrations()
      modifies this`mesas
      ensures mesas == AllClosedWhenDue(old(mesas), FirstOpen(book, book.numbers), now)
    {
      var due := Listed(set id | id in mesas && CloseIsDue(mesas[id], now));
      var openRound := FirstOpen(book, book.numbers);
      ghost var (before, at) := (mesas, now);
      ghost var f := (m: Mesa) => CloseDue(m, openRound, at);
      assert Updated(before, mesas, due, 0, f);
      for k := 0 to |due|
        invariant Updated(before, mesas, due, k, f)
      {
        NextUpdated(before, mesas, due, k, f);
        assert due[k] in due;
        var mesa := mesas[due[k]];
        var milestones := mesa.milestones.(registrationClosedAt := mesa.terms.entryEndDate);
        if openRound.Some? {
          milestones := milestones.(referenceRound := openRound, scoreInitialCapturedAt := None,
                                    initializationStatus := Some(WAITING_FOR_REFERENCE_ROUND));
        }
        mesas := mesas[due[k] := mesa.(milestones := milestones)];
      }
      AllUpdated(before, mesas, due, f);
    }

    /** The body of the loop below: the end of one pending Mesa, if it has got one. */
    method FinishOne(id: MesaId) returns (found: bool)
      requires id in mesas && FinishIsPending(mesas[id])
      modifies this`mesas
      ensures mesas == old(mesas)[id := FinishDue(book, old(mesas[id]))]
      ensures found <==> mesas[id] != old(mesas[id])
    {
      var mesa := mesas[id];
      var (closing, end) := (LastRoundClosing(book, mesa), mesa.milestones.endDate);
      found := closing.Some? && (end.None? || end.value > closing.value);
      if found {
        mesas := mesas[id := mesa.(milestones := mesa.milestones.(endDate := closing))];
      }
    }

    /** The end dates, and the Mesas that have got one. */
    method FinishDueRoundMesas() returns (finished: seq<MesaId>)
      modifies this`mesas
      ensures mesas == AllFinishedWhenDue(book, old(mesas))
      ensures forall id :: id in finished <==> id in mesas && mesas[id] != old(mesas)[id]
    {
      var pending := Listed(set id | id in mesas && FinishIsPending(mesas[id]));
      finished := [];
      ghost var (before, rounds) := (mesas, book);
      ghost var f := (m: Mesa) => FinishDue(rounds, m);
      assert forall id :: id in pending ==> FinishIsPending(before[id]);
      assert Updated(before, mesas, pending, 0, f);
      for k := 0 to |pending|
        invariant Updated(before, mesas, pending, k, f)
        invariant forall id :: id in finished <==> id in before && mesas[id] != before[id]
      {
        NextUpdated(before, mesas, pending, k, f);
        assert pending[k] in pending;
        var found := FinishOne(pending[k]);
        if found {
          finished := finished + [pending[k]];
        }
      }
      AllUpdated(before, mesas, pending, f);
    }

    // ---- mesa-initial-score ----

    /** The loop over the participants of one Mesa. */
    method CaptureParticipants(id: MesaId, reference: RoundNo)
      requires id in mesas
      modifies this`mesas
      ensures mesas == old(mesas)[id := old(mesas[id]).(participants :=
        CapturedRows(book, old(mesas[id]).participants, reference, now))]
    {
      ghost var rows := mesas[id].participants;
      var participants := mesas[id].participants;
      for k := 0 to |participants|
        invariant |participants| == |rows|
        invariant forall i :: 0 <= i < k ==> participants[i] == CapturedRow(book, rows[i], reference, now)
        invariant forall i :: k <= i < |rows| ==> participants[i] == rows[i]
      {
        var p := participants[k];
        if p.status == APPROVED && p.scoreInitialCapturedAt.None? {
          var history := Latest(book.history, p.userId, ScoredUpTo(book, reference), BY_NUMBER);
          var baseline := if history.Some? then history.value.totals.score else 0;
          participants := participants[k := p.(scoreInitial := baseline, scoreInitialCapturedAt := Some(now))];
        }
      }
      assert participants == CapturedRows(book, rows, reference, now);
      mesas := mesas[id := mesas[id].(participants := participants)];
    }

    /** The transaction of one Mesa. */
    method CaptureMesa(id: MesaId)
      requires id in mesas
      modifies this`mesas
      ensures mesas == old(mesas)[id := Capture(book, old(mesas[id]), now)]
    {
      var mesa := mesas[id];
      if !CaptureIsPending(mesa) {
        return;
      }
      var reference := mesa.milestones.referenceRound.value;
      if !HasStatus(book, reference, SCORED) {
        return;
      }
      mesas := mesas[id :=
        mesa.(milestones := mesa.milestones.(initializationStatus := Some(WAITING_FOR_BASELINE_CAPTURE)))];
      var approved := Approved(mesa.participants);
      if |approved| == 0 || |approved| != mesa.counters.currentParticipants
        || !HistoryComplete(book, approved, reference) {
        return;
      }
      CaptureParticipants(id, reference);
      var captured := mesas[id];
      mesas := mesas[id := captured.(milestones := captured.milestones.(
        initializationStatus := Some(READY), scoreInitialCapturedAt := Some(now)))];
    }

    method CapturePending()
      modifies this`mesas
      ensures mesas == AllPendingCaptured(book, old(mesas), now)
    {
      var pending := Listed(set id | id in mesas && CaptureIsPending(mesas[id]));
      ghost var (before, rounds, at) := (mesas, book, now);
      ghost var f := (m: Mesa) => Capture(rounds, m, at);
      assert Updated(before, mesas, pending, 0, f);
      for k := 0 to |pending|
        invariant Updated(before, mesas, pending, k, f)
      {
        NextUpdated(before, mesas, pending, k, f);
        CaptureMesa(pending[k]);
      }
      AllUpdated(before, mesas, pending, f);
    }

    // ---- settle-bolao ----

    /** Creates the wallet if need be, then the ledger row, then increments the balance; the
        ledger refuses a row worth nothing and a key it holds already. */
    method PayOut(id: MesaId, payout: Payout) returns (ok: bool)
      modifies this`wallets
      ensures var credited := Credited(WalletOf(old(wallets), payout.userId), payout.amount, Some(PayoutKey(id)));
        if credited.None? then !ok else ok && wallets == old(wallets)[payout.userId := credited.value]
    {
      if payout.userId !in wallets {
        wallets := wallets[payout.userId := NEW_WALLET];
      }
      var wallet := wallets[payout.userId];
      if payout.amount <= 0 || KeyCount(wallet.ledger, PayoutKey(id)) > 0 {
        return false;
      }
      wallet := wallet.(ledger := wallet.ledger + [LedgerEntry(CREDIT, payout.amount, Some(PayoutKey(id)))]);
      wallets := wallets[payout.userId := wallet.(balance := wallet.balance + payout.amount)];
      return true;
    }

    method PayOutAll(id: MesaId, payouts: seq<Payout>) returns (ok: bool)
      modifies this`wallets
      ensures var credited := CreditAll(old(wallets), id, payouts);
        if credited.None? then !ok else ok && wallets == credited.value
    {
      ghost var before := wallets;
      for k := 0 to |payouts|
        invariant CreditAll(before, id, payouts[..k]) == Some(wallets)
      {
        assert payouts[..k + 1][..k] == payouts[..k];
        ok := PayOut(id, payouts[k]);
        if !ok {
          CreditAllStops(before, id, payouts, k + 1);
          return;
        }
      }
      assert payouts[..|payouts|] == payouts;
      return true;
    }

    method SettleMesa(id: MesaId, rows: seq<Ranked<Row>>, activePro: set<UserId>) returns (error: Option<CloseError>)
      requires id in mesas
      modifies this`wallets, this`mesas, this`settlements
      ensures var settled := Settle(id, old(mesas[id]), rows, old(wallets), activePro, now);
        if settled.Err? then error == Some(settled.error)
        else
          && error == None && mesas == old(mesas)[id := settled.value.mesa] && wallets == settled.value.wallets
          && settled.value.settlement.Some? && settlements == old(settlements)[id := settled.value.settlement.value]
    {
      var ranking := mesas[id];
      var distribution := Distribution(ranking.terms);
      if distribution.Err? {
        return Some(InvalidPrizes(distribution.error));
      }
      var totals := ExpectedTotals(ranking.terms, ranking.counters.grossCollected);
      var payouts := CalculatePayouts(totals.prizePool, distribution.value, PrizeRows(rows, RowMetrics));
      var settlement := Split(ranking.terms, payouts, activePro);
      var ok := PayOutAll(id, settlement.eligible);
      if !ok {
        return Some(PayoutRefused);
      }
      mesas := mesas[id := ranking.(settledAt := Some(now), counters := ranking.counters.(
        pools := Pools(totals.platformFee, totals.prizePool, Some(totals.prizePool))))];
      settlements := settlements[id := settlement];
      return None;
    }

    // ---- close-ranking ----

    method Freeze(id: MesaId, rows: seq<Ranked<Row>>)
      requires id in mesas && OneRowPerUser(mesas[id].participants)
      modifies this`mesas
      ensures mesas == old(mesas)[id := old(mesas[id]).(participants := Frozen(old(mesas[id]).participants, rows))]
    {
      ghost var ps := mesas[id].participants;
      var participants := mesas[id].participants;
      assert Frozen(ps, rows[..0]) == ps;
      for k := 0 to |rows|
        invariant participants == Frozen(ps, rows[..k]) && mesas == old(mesas)
      {
        var row := rows[k];
        FrozenUsers(ps, rows[..k]);
        var index := IndexOf(participants, row.row.userId);
        if index.Some? {
          FrozenNext(ps, rows, k, index.value);
          var frozen := participants[index.value];
          var tiebreak := StoredTiebreak(row.row.hits, row.row.userCreatedAt);
          participants := participants[index.value := frozen.(
            score := row.row.score, position := Some(row.position), tiebreak := Some(tiebreak))];
        } else {
          FrozenSkips(ps, rows, k);
        }
      }
      assert rows[..|rows|] == rows;
      mesas := mesas[id := mesas[id].(participants := participants)];
    }

    /** What follows the guards. */
    method FreezeAndSettle(id: MesaId, rows: seq<Ranked<Row>>,
                           activePro: set<UserId>) returns (error: Option<CloseError>)
      requires id in mesas && OneRowPerUser(mesas[id].participants)
      modifies this`wallets, this`mesas, this`settlements
      ensures var whole := FrozenAndSettled(old(View()), id, rows, activePro);
        if whole.Err? then error == Some(whole.error) else error == None && View() == whole.value
    {
      Freeze(id, rows);
      if mesas[id].settledAt.None? {
        error := SettleMesa(id, rows, activePro);
        if error.Some? {
          return;
        }
      }
      mesas := mesas[id := mesas[id].(status := MesaStatus.CLOSED)];
      return None;
    }

    method CloseStatements(id: MesaId, force: bool, activePro: set<UserId>) returns (error: Option<CloseError>)
      requires id in mesas && OneRowPerUser(mesas[id].participants)
      modifies this`wallets, this`mesas, this`settlements
      ensures var whole := CloseWhole(old(View()), id, force, activePro);
        if whole.Err? then error == Some(whole.error) else error == None && View() == whole.value
    {
      var ranking := mesas[id];
      var end := ranking.milestones.endDate;
      error := CloseProblem(ranking, end, force, now);
      if error.Some? {
        return;
      }
      var rows := BuildRows(book, ranking.terms, ranking.milestones, end, Approved(ranking.participants), now);
      CloseWholeInParts(View(), id, force, activePro);
      error := FreezeAndSettle(id, rows, activePro);
    }

    /** The unique index of the participants is all that closing takes for granted. */
    method CloseRanking(id: MesaId, force: bool, activePro: set<UserId>) returns (error: Option<CloseError>)
      requires id in mesas ==> OneRowPerUser(mesas[id].participants)
      modifies this
      ensures var whole := CloseWhole(old(View()), id, force, activePro);
        if whole.Err? then error == Some(whole.error) && View() == old(View())
        else error == None && View() == whole.value
    {
      if id !in mesas {
        return Some(RankingNotFound);
      }
      var saved := View();
      error := CloseStatements(id, force, activePro);
      if error.Some? {
        Rollback(saved);
      }
    }
  }
}
