/** What every Mesa keeps from its creation to its settlement. */
module MesaInvariant {
  import opened Collections
  import opened Tiebreak
  import opened Prize
  import opened Domain
  import opened MesaRules
  import opened MesaIntegrity
  import opened Book
  import opened BookRun
  import opened Window
  import opened Join
  import opened Lifecycle
  import opened Settlement

  // ---- the invariant ----

  ghost predicate TermsOk(t: Terms) {
    SoundTerms(t) && ScheduleOk(t)
  }

  ghost predicate ScheduleOk(t: Terms) {
    && (ByCapacity(t) ==> t.maxParticipants.GetOr(0) >= 2)
    && (!ByCapacity(t) ==> t.maxParticipants.None? && t.entryEndDate.Some?)
    && (t.durationMode == ROUNDS ==> t.durationRounds.GetOr(0) > 0)
  }

  ghost predicate MoneyOk(m: Mesa) {
    && SoundPools(m.terms, m.counters, |m.participants|)
    && (HasPaidEntry(m.terms) ==> forall p :: p in m.participants ==> PaidInFull(p, AccessCost(m.terms)))
  }

  ghost predicate Uncaptured(ps: seq<Participant>) {
    forall p :: p in ps ==> p.scoreInitialCapturedAt.None?
  }

  /** Every initial score is what its user had earned up to the reference round. */
  ghost predicate CapturedAt(b: Book, ps: seq<Participant>, reference: RoundNo) {
    forall p :: p in ps ==>
      p.scoreInitialCapturedAt.Some? && p.scoreInitial == Earned(b.history, p.userId, ScoredUpTo(b, reference), Score)
  }

  predicate Full(m: Mesa) {
    m.terms.maxParticipants == Some(|m.participants|)
  }

  /** A Mesa that lasts some rounds ends when they are over, and has no end before that. */
  ghost predicate EndOk(b: Book, m: Mesa) {
    m.terms.durationMode == ROUNDS && m.milestones.endDate.Some? ==>
      && m.milestones.referenceRound.Some?
      && m.milestones.endDate == DueDate(b, m.milestones.referenceRound.value, m.terms.durationRounds.GetOr(0))
  }

  ghost predicate Unended(m: Mesa) {
    m.terms.durationMode == ROUNDS ==> m.milestones.endDate.None?
  }

  /** Registration may go on, or has been closed by date while no round was open. */
  ghost predicate Registering(m: Mesa) {
    && m.status != MesaStatus.CLOSED && m.settledAt.None? && Unended(m) && Uncaptured(m.participants)
    && m.milestones.referenceRound.None? && m.milestones.scoreInitialCapturedAt.None?
    && (m.milestones.registrationClosedAt.Some? ==> !ByCapacity(m.terms) && m.status == ACTIVE)
    && (m.status == MesaStatus.DRAFT ==> m.participants == [])
    && (ByCapacity(m.terms) ==> |m.participants| < m.terms.maxParticipants.GetOr(0))
  }

  /** Registration is closed; the reference round is to be scored and the initial scores captured. */
  ghost predicate Awaiting(b: Book, m: Mesa) {
    && m.status == ACTIVE && m.settledAt.None? && Unended(m) && Uncaptured(m.participants)
    && m.milestones.referenceRound.Some? && m.milestones.registrationClosedAt.Some?
    && m.milestones.scoreInitialCapturedAt.None?
    && (ByCapacity(m.terms) ==> Full(m))
  }

  /** The barrier has been met: the window runs, or the Mesa is settled and closed. */
  ghost predicate Started(b: Book, m: Mesa) {
    && m.status != MesaStatus.DRAFT && (m.settledAt.Some? <==> m.status == MesaStatus.CLOSED)
    && m.milestones.referenceRound.Some? && m.milestones.registrationClosedAt.Some?
    && m.milestones.scoreInitialCapturedAt.Some?
    && HasStatus(b, m.milestones.referenceRound.value, SCORED)
    && CapturedAt(b, m.participants, m.milestones.referenceRound.value)
    && m.participants != [] && EndOk(b, m)
    && (ByCapacity(m.terms) ==> Full(m))
  }

  ghost predicate StageOk(b: Book, m: Mesa) {
    match m.milestones.initializationStatus
    case None => false
    case Some(WAITING_FOR_REGISTRATION_CLOSE) => Registering(m)
    case Some(WAITING_FOR_REFERENCE_ROUND) => Awaiting(b, m)
    case Some(WAITING_FOR_BASELINE_CAPTURE) => Awaiting(b, m) && HasStatus(b, m.milestones.referenceRound.value, SCORED)
    case Some(READY) => Started(b, m)
  }

  ghost predicate MesaOk(b: Book, m: Mesa) {
    TermsOk(m.terms) && Seated(m) && MoneyOk(m) && StageOk(b, m)
  }

  // ---- the report ----

  lemma {:induction false} SeatsFit(b: Book, m: Mesa)
    requires MesaOk(b, m)
    ensures m.terms.maxParticipants.Some? ==> |m.participants| <= m.terms.maxParticipants.value
  {}

  /** No operation of the lifecycle ever lets the integrity check block a described Mesa. */
  lemma {:induction false} ReportIsEmpty(b: Book, m: Mesa)
    requires MesaOk(b, m)
    ensures Inspect(m) == [] <==> Trim(m.terms.description) != ""
  {
    AllApproved(m.participants);
    SeatsFit(b, m);
    assert SoundSeats(m);
    EmptyReportExactly(m);
  }

  // ---- creation and publication ----

  lemma {:induction false} CreatedScheduleIsOk(input: CreateInput, ctx: CreateContext, m: Mesa)
    requires CreateMesa(input, ctx) == Ok(m)
    ensures ScheduleOk(m.terms)
    ensures m.terms.durationMode == ROUNDS ==> m.milestones.endDate.None?
  {
    CreatedMesaIsNew(input, ctx, m);
    var terms := ValidateTerms(input.terms).value;
    assert ScheduleError(terms.registrationCloseMode, input.durationMode.GetOr(ROUNDS), input.entryEndDate,
                         input.endDate, terms.maxParticipants, input.durationRounds).None?;
    assert AcceptedByDatabase(input.durationMode.GetOr(ROUNDS), input.durationRounds);
  }

  lemma {:induction false} CreatedMesaIsOk(b: Book, input: CreateInput, ctx: CreateContext, m: Mesa)
    requires CreateMesa(input, ctx) == Ok(m)
    ensures MesaOk(b, m) && m.status == MesaStatus.DRAFT && m.participants == []
  {
    CreatedTermsAreSound(input, ctx, m);
    CreatedMesaIsSound(input, ctx, m);
    CreatedScheduleIsOk(input, ctx, m);
    CreatedMesaIsNew(input, ctx, m);
    NewMesaIsOk(b, m.terms, ValidateTerms(input.terms).value, input.endDate);
  }

  lemma {:induction false} NewMesaIsOk(b: Book, t: Terms, terms: CategoryTerms, endDate: Option<Time>)
    requires TermsOk(t) && SoundPools(t, NewCounters(terms), 0)
    requires t.durationMode == ROUNDS ==> endDate.None?
    ensures var m := NewMesa(t, NewCounters(terms), endDate);
      MesaOk(b, m) && m.status == MesaStatus.DRAFT && m.participants == []
  {}

  lemma {:induction false} PublishedMesaIsOk(b: Book, m: Mesa)
    requires MesaOk(b, m) && m.status == MesaStatus.DRAFT
    ensures MesaOk(b, m.(status := ACTIVE)) && m.milestones.registrationClosedAt.None?
  {}

  /** Editing makes the checks of creation, in another order. */
  lemma {:induction false} EditChecksAsCreation(input: CreateInput, ctx: CreateContext, terms: CategoryTerms)
    ensures EditProblem(input, ctx, terms).None? <==> CreationProblem(input, ctx, terms).None?
  {}

  lemma {:induction false} EditCreates(m: Mesa, input: CreateInput, ctx: CreateContext, after: Mesa, created: Mesa)
    requires EditDraft(m, input, ctx) == Ok(after)
    requires created == NewMesa(
      after.terms.(createdBy := input.createdBy, createdByAdmin := input.administrative),
      NewCounters(ValidateTerms(input.terms).value), input.endDate)
    ensures CreateMesa(input, ctx.(startOfToday := input.startDate)) == Ok(created)
  {
    EditChecksAsCreation(input, ctx.(startOfToday := input.startDate), ValidateTerms(input.terms).value);
    EditChecksAsCreation(input, ctx, ValidateTerms(input.terms).value);
  }

  lemma {:induction false} OwnerDoesNotMatter(b: Book, m: Mesa, after: Mesa)
    requires MesaOk(b, m)
    requires after == m.(
      terms := m.terms.(createdBy := after.terms.createdBy, createdByAdmin := after.terms.createdByAdmin))
    ensures MesaOk(b, after)
  {
    EntryRevenueIsProduct(m.terms, |m.participants|);
    EntryRevenueIsProduct(after.terms, |m.participants|);
  }

  lemma {:induction false} DraftIsNew(b: Book, m: Mesa)
    requires MesaOk(b, m) && m.status == MesaStatus.DRAFT
    ensures m.participants == [] && m.settledAt.None?
    ensures m.counters.currentParticipants == m.counters.grossCollected == 0
    ensures m.milestones == Milestones(None, None, Some(WAITING_FOR_REGISTRATION_CLOSE), None, m.milestones.endDate)
  {}

  lemma {:induction false} EditNeedsDraft(m: Mesa, input: CreateInput, ctx: CreateContext)
    requires EditDraft(m, input, ctx).Ok?
    ensures m.status == MesaStatus.DRAFT && ValidateTerms(input.terms).Ok?
  {}

  lemma {:induction false} EditOrNot(m: Mesa, input: CreateInput, terms: CategoryTerms, problem: Option<CreationError>,
                                     after: Mesa)
    requires EditOrProblem(m, input, terms, problem) == Ok(after)
    ensures after == Edited(m, input, terms)
  {}

  lemma {:induction false} EditEdits(m: Mesa, input: CreateInput, ctx: CreateContext, terms: CategoryTerms, after: Mesa)
    requires EditDraft(m, input, ctx) == Ok(after) && ValidateTerms(input.terms) == Ok(terms)
    ensures after == Edited(m, input, terms)
  {
    EditOrNot(m, input, terms, EditProblem(input, ctx, terms), after);
  }

  /** An edited draft is a new Mesa of the same owner. */
  lemma {:induction false} EditedIsNew(b: Book, m: Mesa, input: CreateInput, terms: CategoryTerms, after: Mesa)
    requires MesaOk(b, m) && m.status == MesaStatus.DRAFT && after == Edited(m, input, terms)
    ensures after == NewMesa(after.terms, NewCounters(terms), input.endDate)
    ensures after.terms.createdBy == m.terms.createdBy && after.terms.createdByAdmin == m.terms.createdByAdmin
  {
    DraftIsNew(b, m);
  }

  /** An edited draft is as good as a new Mesa. */
  lemma {:induction false} EditedDraftIsOk(b: Book, m: Mesa, input: CreateInput, ctx: CreateContext, after: Mesa)
    requires MesaOk(b, m) && EditDraft(m, input, ctx) == Ok(after)
    ensures MesaOk(b, after) && after.status == MesaStatus.DRAFT && m.status == MesaStatus.DRAFT
    ensures after.terms.createdBy == m.terms.createdBy && after.terms.createdByAdmin == m.terms.createdByAdmin
    ensures m.participants == after.participants == []
    ensures after.counters.grossCollected == m.counters.grossCollected == 0
  {
    EditNeedsDraft(m, input, ctx);
    var terms := ValidateTerms(input.terms).value;
    EditEdits(m, input, ctx, terms, after);
    EditedIsNew(b, m, input, terms, after);
    var owned := after.terms.(createdBy := input.createdBy, createdByAdmin := input.administrative);
    EditedStaysOk(b, m, input, ctx, after, NewMesa(owned, NewCounters(terms), input.endDate));
    DraftIsNew(b, m);
    DraftIsNew(b, after);
  }

  lemma {:induction false} EditedStaysOk(b: Book, m: Mesa, input: CreateInput, ctx: CreateContext, after: Mesa,
                                         created: Mesa)
    requires EditDraft(m, input, ctx) == Ok(after) && ValidateTerms(input.terms).Ok?
    requires created == NewMesa(
      after.terms.(createdBy := input.createdBy, createdByAdmin := input.administrative),
      NewCounters(ValidateTerms(input.terms).value), input.endDate)
    requires after == NewMesa(after.terms, NewCounters(ValidateTerms(input.terms).value), input.endDate)
    ensures MesaOk(b, after)
  {
    EditCreates(m, input, ctx, after, created);
    CreatedMesaIsOk(b, input, ctx.(startOfToday := input.startDate), created);
    OwnerDoesNotMatter(b, created, after);
  }

  // ---- joining ----

  lemma {:induction false} JoinKeepsSeats(m: Mesa, u: UserId, scoreInitial: int, approvedAt: Time,
                                          open: Option<RoundNo>, after: Mesa)
    requires Seated(m) && Joined(m, u, scoreInitial, approvedAt, open) == Ok(after)
    ensures Seated(after) && after.terms == m.terms && |after.participants| == |m.participants| + 1
    ensures Uncaptured(m.participants) ==> Uncaptured(after.participants)
    ensures after.counters == UpdateTotals(m.terms, CountSeat(m.terms, m.counters))
  {}

  lemma {:induction false} JoinKeepsMoney(m: Mesa, u: UserId, scoreInitial: int, approvedAt: Time,
                                          open: Option<RoundNo>, after: Mesa)
    requires TermsOk(m.terms) && Seated(m) && MoneyOk(m) && Joined(m, u, scoreInitial, approvedAt, open) == Ok(after)
    ensures MoneyOk(after)
  {
    JoinAddsARow(m, u, scoreInitial, approvedAt, open);
    JoinKeepsSeats(m, u, scoreInitial, approvedAt, open, after);
    CountedSeatPays(m.terms, m.counters, |m.participants|);
  }

  lemma {:induction false} JoinKeepsStage(b: Book, m: Mesa, u: UserId, scoreInitial: int, approvedAt: Time,
                                          open: Option<RoundNo>, after: Mesa)
    requires TermsOk(m.terms) && Seated(m) && StageOk(b, m) && m.milestones.registrationClosedAt.None?
    requires m.status == ACTIVE && Joined(m, u, scoreInitial, approvedAt, open) == Ok(after)
    ensures StageOk(b, after)
  {
    JoinKeepsSeats(m, u, scoreInitial, approvedAt, open, after);
    assert Registering(m);
  }

  lemma {:induction false} JoinedMesaIsOk(b: Book, m: Mesa, u: UserId, scoreInitial: int, approvedAt: Time,
                                          open: Option<RoundNo>, after: Mesa)
    requires MesaOk(b, m) && m.status == ACTIVE && m.milestones.registrationClosedAt.None?
    requires Joined(m, u, scoreInitial, approvedAt, open) == Ok(after)
    ensures MesaOk(b, after)
  {
    JoinKeepsSeats(m, u, scoreInitial, approvedAt, open, after);
    JoinKeepsMoney(m, u, scoreInitial, approvedAt, open, after);
    JoinKeepsStage(b, m, u, scoreInitial, approvedAt, open, after);
  }

  /** On a capacity Mesa the last seat, and only the last seat, closes the registration, on the
      round that is open then. */
  lemma {:induction false} LastSeatCloses(b: Book, m: Mesa, u: UserId, scoreInitial: int, approvedAt: Time,
                                          open: Option<RoundNo>, after: Mesa)
    requires MesaOk(b, m) && ByCapacity(m.terms) && m.status == ACTIVE && m.milestones.registrationClosedAt.None?
    requires Joined(m, u, scoreInitial, approvedAt, open) == Ok(after)
    ensures after.milestones.registrationClosedAt.Some? <==> Full(after)
    ensures Full(after) ==>
      open.Some? && after.milestones.referenceRound == open && after.milestones.registrationClosedAt == Some(approvedAt)
    ensures !Full(after) ==> after.milestones == m.milestones
  {}

  // ---- milestones ----

  lemma {:induction false} CloseDueKeepsMesa(b: Book, m: Mesa, open: Option<RoundNo>, now: Time)
    requires MesaOk(b, m)
    ensures MesaOk(b, CloseDue(m, open, now))
  {}

  /** The registration closes at its own date, however late the job that notices it. The round
      of reference is the one that is open when the job runs: two runs leave the same Mesa
      exactly when they find the same round open, or none. */
  lemma {:induction false} DelayMattersExactly(b: Book, m: Mesa, open: Option<RoundNo>, now: Time,
                                               openLater: Option<RoundNo>, later: Time)
    requires MesaOk(b, m) && CloseIsDue(m, now) && now <= later
    ensures CloseDue(m, open, now).milestones.registrationClosedAt
      == CloseDue(m, openLater, later).milestones.registrationClosedAt == m.terms.entryEndDate
    ensures CloseDue(m, open, now).milestones.referenceRound == open
    ensures CloseDue(m, openLater, later) == CloseDue(m, open, now) <==> openLater == open
  {
    assert Registering(m);
  }

  const FIRST_OPEN :=
    Book([1, 2], map[1 := Round(OPEN, Some(10)), 2 := Round(RoundStatus.DRAFT, Some(20))], [], [], map[])
  const SECOND_OPEN := Next(Next(FIRST_OPEN, RoundClosed(1)), RoundOpened(2))

  lemma {:induction false} FirstCloses()
    ensures BookOk(FIRST_OPEN) && Allowed(FIRST_OPEN, RoundClosed(1))
    ensures FirstOpen(FIRST_OPEN, FIRST_OPEN.numbers) == Some(1)
  {}

  lemma {:induction false} SecondOpens()
    ensures Allowed(Next(FIRST_OPEN, RoundClosed(1)), RoundOpened(2))
    ensures FirstOpen(SECOND_OPEN, SECOND_OPEN.numbers) == Some(2)
  {
    assert SECOND_OPEN.numbers[1..] == [2];
  }

  /** Such a delay: round 1 closes and round 2 opens before the job runs, and any Mesa that was
      due gets the second round as its reference instead of the first. */
  lemma {:induction false} DelayedReference(m: Mesa, now: Time, later: Time)
    requires MesaOk(FIRST_OPEN, m) && CloseIsDue(m, now) && now <= later
    ensures CloseDue(m, FirstOpen(FIRST_OPEN, FIRST_OPEN.numbers), now).milestones.referenceRound == Some(1)
    ensures CloseDue(m, FirstOpen(SECOND_OPEN, SECOND_OPEN.numbers), later).milestones.referenceRound == Some(2)
  {
    FirstCloses();
    SecondOpens();
    DelayMattersExactly(FIRST_OPEN, m, Some(1), now, Some(2), later);
  }

  lemma {:induction false} CaptureIsTheSum(b: Book, p: Participant, reference: RoundNo, now: Time)
    requires HistoryOk(b) && p.status == APPROVED && p.scoreInitialCapturedAt.None?
    ensures CapturedRow(b, p, reference, now).scoreInitialCapturedAt == Some(now)
    ensures CapturedRow(b, p, reference, now).scoreInitial
      == Earned(b.history, p.userId, ScoredUpTo(b, reference), Score)
  {
    ScoredUpToIsClosed(b, reference);
    LatestTotalsAreTheSum(b.history, p.userId, ScoredUpTo(b, reference), BY_NUMBER, Score);
  }

  lemma {:induction false} CapturedRowsAreSums(b: Book, ps: seq<Participant>, reference: RoundNo, now: Time)
    requires HistoryOk(b) && Uncaptured(ps) && forall p :: p in ps ==> p.status == APPROVED
    ensures CapturedAt(b, CapturedRows(b, ps, reference, now), reference)
  {
    var captured := CapturedRows(b, ps, reference, now);
    forall i | 0 <= i < |ps|
      ensures captured[i].scoreInitialCapturedAt.Some?
        && captured[i].scoreInitial == Earned(b.history, captured[i].userId, ScoredUpTo(b, reference), Score)
    {
      CaptureIsTheSum(b, ps[i], reference, now);
    }
  }

  lemma {:induction false} CapturedRowsKeepSeats(b: Book, m: Mesa, reference: RoundNo, now: Time, after: Mesa)
    requires Seated(m) && MoneyOk(m) && after.terms == m.terms && after.counters == m.counters
    requires after.participants == CapturedRows(b, m.participants, reference, now)
    ensures Seated(after) && MoneyOk(after)
  {
    forall p | p in after.participants && HasPaidEntry(m.terms) ensures PaidInFull(p, AccessCost(m.terms)) {
      var i :| 0 <= i < |after.participants| && after.participants[i] == p;
      assert m.participants[i] in m.participants;
    }
  }

  lemma {:induction false} CaptureStarts(b: Book, m: Mesa, reference: RoundNo, now: Time, after: Mesa)
    requires Awaiting(b, m) && m.milestones.referenceRound == Some(reference) && HasStatus(b, reference, SCORED)
    requires m.participants != [] && CapturedAt(b, after.participants, reference)
    requires |after.participants| == |m.participants|
    requires after == m.(participants := after.participants,
      milestones := m.milestones.(scoreInitialCapturedAt := Some(now), initializationStatus := Some(READY)))
    ensures Started(b, after)
  {}

  lemma {:induction false} CaptureKeepsMesa(b: Book, m: Mesa, now: Time)
    requires BookOk(b) && MesaOk(b, m)
    ensures MesaOk(b, Capture(b, m, now))
  {
    if CaptureIsPending(m) {
      var reference := m.milestones.referenceRound.value;
      if HasStatus(b, reference, SCORED) && ReadyToCapture(b, m, reference) {
        AllApproved(m.participants);
        CapturedRowsAreSums(b, m.participants, reference, now);
        CapturedRowsKeepSeats(b, m, reference, now, Capture(b, m, now));
        CaptureStarts(b, m, reference, now, Capture(b, m, now));
      }
    }
  }

  /** Running the capture again changes nothing. */
  lemma {:induction false} CaptureTwice(b: Book, m: Mesa, now: Time, later: Time)
    requires MesaOk(b, m)
    ensures Capture(b, Capture(b, m, now), later) == Capture(b, m, now)
  {}

  /** No participant holds a ticket up to the reference whose round is neither scored nor cancelled. */
  ghost predicate NoneOutstanding(b: Book, ps: seq<Participant>, reference: RoundNo) {
    forall t :: t in b.tickets && Takes(ps, t.userId) && t.round in b.rounds && t.round <= reference ==>
      HasStatus(b, t.round, SCORED) || HasStatus(b, t.round, CANCELLED)
  }

  lemma {:induction false} HistoryCompleteExactly(b: Book, ps: seq<Participant>, reference: RoundNo)
    requires HistoryOk(b)
    ensures HistoryComplete(b, ps, reference) <==> NoneOutstanding(b, ps, reference)
  {}

  /** The Mesa is active, its registration has closed on a reference round, and its initial scores
      are still to be captured. */
  predicate AwaitsCapture(m: Mesa) {
    && m.status == ACTIVE && m.milestones.registrationClosedAt.Some? && m.milestones.referenceRound.Some?
    && m.milestones.scoreInitialCapturedAt.None?
    && (m.milestones.initializationStatus == Some(WAITING_FOR_REFERENCE_ROUND)
        || m.milestones.initializationStatus == Some(WAITING_FOR_BASELINE_CAPTURE))
  }

  /** Somebody takes part, the counter is right, and nobody who takes part holds a ticket up to the
      reference in a round that is neither scored nor cancelled. */
  ghost predicate MayCapture(b: Book, m: Mesa, reference: RoundNo) {
    && (exists p :: p in m.participants && p.status == APPROVED)
    && m.counters.currentParticipants == ApprovedCount(m.participants)
    && forall t, p ::
      && t in b.tickets && p in m.participants && p.status == APPROVED && p.userId == t.userId
      && t.round in b.rounds && t.round <= reference
      ==> b.rounds[t.round].status == SCORED || b.rounds[t.round].status == CANCELLED
  }

  /** The participants as they were, but with what the approved ones had earned in the rounds,
      captured now unless it had been. */
  ghost predicate AreCaptured(h: seq<History>, ps: seq<Participant>, after: seq<Participant>, rounds: set<RoundNo>,
                              now: Time) {
    && |after| == |ps|
    && forall i :: 0 <= i < |ps| ==>
      after[i] == if ps[i].status == APPROVED && ps[i].scoreInitialCapturedAt.None?
                  then ps[i].(scoreInitial := Earned(h, ps[i].userId, rounds, Score), scoreInitialCapturedAt :=
                    Some(now))
                  else ps[i]
  }

  lemma {:induction false} MayCaptureExactly(b: Book, m: Mesa, reference: RoundNo)
    requires HistoryOk(b)
    ensures ReadyToCapture(b, m, reference) <==> MayCapture(b, m, reference)
  {
    var approved := Approved(m.participants);
    HistoryCompleteExactly(b, approved, reference);
    if approved != [] {
      assert approved[0] in approved;
    }
    if MayCapture(b, m, reference) {
      forall t | t in b.tickets && Takes(approved, t.userId) && t.round in b.rounds && t.round <= reference
        ensures HasStatus(b, t.round, SCORED) || HasStatus(b, t.round, CANCELLED)
      {
        var p :| p in approved && p.userId == t.userId;
      }
    }
    if NoneOutstanding(b, approved, reference) {
      forall t, p |
        && t in b.tickets && p in m.participants && p.status == APPROVED && p.userId == t.userId
        && t.round in b.rounds && t.round <= reference
        ensures b.rounds[t.round].status == SCORED || b.rounds[t.round].status == CANCELLED
      {
        assert p in approved && Takes(approved, t.userId);
      }
    }
  }

  lemma {:induction false} RowsAreCaptured(b: Book, ps: seq<Participant>, reference: RoundNo, now: Time,
                                           rounds: set<RoundNo>)
    requires HistoryOk(b) && rounds == ScoredUpTo(b, reference)
    ensures AreCaptured(b.history, ps, CapturedRows(b, ps, reference, now), rounds, now)
  {
    forall i | 0 <= i < |ps| && ps[i].status == APPROVED && ps[i].scoreInitialCapturedAt.None?
      ensures CapturedRow(b, ps[i], reference, now)
        == ps[i].(scoreInitial := Earned(b.history, ps[i].userId, rounds, Score), scoreInitialCapturedAt := Some(now))
    {
      CaptureIsTheSum(b, ps[i], reference, now);
    }
  }

  /** What the job makes of any Mesa: nothing while it does not await the capture or its reference is
      not scored; otherwise the capture of everybody, or, while it may not, the note that it waits. */
  lemma {:induction false} CaptureSucceedsExactly(b: Book, m: Mesa, now: Time, rounds: set<RoundNo>)
    requires HistoryOk(b)
    requires forall n :: n in rounds <==>
      (&& n in b.rounds && b.rounds[n].status == SCORED
       && m.milestones.referenceRound.Some? && n <= m.milestones.referenceRound.value)
    ensures var (ms, after) := (m.milestones, Capture(b, m, now));
      if !AwaitsCapture(m) || !HasStatus(b, ms.referenceRound.value, SCORED) then after == m
      else if !MayCapture(b, m, ms.referenceRound.value)
      then after == m.(milestones := ms.(initializationStatus := Some(WAITING_FOR_BASELINE_CAPTURE)))
      else
        && after == m.(participants := after.participants, milestones := ms.(
          initializationStatus := Some(READY), scoreInitialCapturedAt := Some(now)))
        && AreCaptured(b.history, m.participants, after.participants, rounds, now)
  {
    if AwaitsCapture(m) && HasStatus(b, m.milestones.referenceRound.value, SCORED) {
      var reference := m.milestones.referenceRound.value;
      MayCaptureExactly(b, m, reference);
      forall n: RoundNo | true ensures n in rounds <==> n in ScoredUpTo(b, reference) {}
      assert rounds == ScoredUpTo(b, reference);
      RowsAreCaptured(b, m.participants, reference, now, rounds);
    }
  }

  /** The job gives a running Mesa of rounds the closing of its last round, as soon as there is one. */
  lemma {:induction false} FinishFindsTheEnd(b: Book, m: Mesa)
    requires Seated(m) && Started(b, m) && m.status == ACTIVE && m.milestones.initializationStatus == Some(READY)
    requires m.terms.durationMode == ROUNDS && m.terms.durationRounds.GetOr(0) > 0
    ensures FinishDue(b, m).milestones.endDate
      == DueDate(b, m.milestones.referenceRound.value, m.terms.durationRounds.GetOr(0))
  {}

  lemma {:induction false} FinishKeepsMesa(b: Book, m: Mesa)
    requires MesaOk(b, m)
    ensures MesaOk(b, FinishDue(b, m))
  {}

  // ---- the book goes on ----

  lemma {:induction false} EarnedStays(h: seq<History>, later: seq<History>, u: UserId, within: set<RoundNo>, f: Figure)
    requires h <= later && forall k :: |h| <= k < |later| ==> later[k].round !in within
    ensures Earned(later, u, within, f) == Earned(h, u, within, f)
    decreases |later|
  {
    if |later| > |h| {
      EarnedStays(h, later[..|later| - 1], u, within, f);
    } else {
      assert later == h;
    }
  }

  lemma {:induction false} ScoredUpToStays(b: Book, later: Book, reference: RoundNo)
    requires Extends(b, later) && HasStatus(b, reference, SCORED)
    ensures ScoredUpTo(later, reference) == ScoredUpTo(b, reference)
  {}

  /** What was earned up to a scored round is settled for good. */
  lemma {:induction false} BaselineStays(b: Book, later: Book, u: UserId, reference: RoundNo)
    requires Extends(b, later) && HasStatus(b, reference, SCORED)
    ensures Earned(later.history, u, ScoredUpTo(later, reference), Score)
      == Earned(b.history, u, ScoredUpTo(b, reference), Score)
  {
    ScoredUpToStays(b, later, reference);
    EarnedStays(b.history, later.history, u, ScoredUpTo(b, reference), Score);
  }

  lemma {:induction false} StartedStays(b: Book, later: Book, m: Mesa)
    requires NumbersOk(b) && NumbersOk(later) && Extends(b, later) && Started(b, m)
    ensures Started(later, m)
  {
    var reference := m.milestones.referenceRound.value;
    forall p | p in m.participants
      ensures p.scoreInitial == Earned(later.history, p.userId, ScoredUpTo(later, reference), Score)
    {
      BaselineStays(b, later, p.userId, reference);
    }
    if m.terms.durationMode == ROUNDS && m.milestones.endDate.Some? {
      DueDateStays(b, later, reference, m.terms.durationRounds.GetOr(0));
    }
  }

  lemma {:induction false} BookKeepsMesa(b: Book, later: Book, m: Mesa)
    requires NumbersOk(b) && NumbersOk(later) && Extends(b, later) && MesaOk(b, m)
    ensures MesaOk(later, m)
  {
    if m.milestones.initializationStatus == Some(READY) {
      StartedStays(b, later, m);
    }
  }
}
