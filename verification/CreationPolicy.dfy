/** Which forms create a Mesa or edit a draft, and what they make of it: the rules of the product,
    category by category, against the checks that the services make one after the other. */
module CreationPolicy {
  import opened Collections
  import opened Tiebreak
  import opened Prize
  import opened Domain
  import opened MesaRules
  import opened Book
  import opened MesaInvariant

  // ---- trimming ----

  predicate AllBlank(s: string) {
    forall i :: 0 <= i < |s| ==> Whitespace(s[i])
  }

  /** `core` is what is left of `s` without blanks at both ends. */
  predicate TrimsTo(s: string, before: string, core: string, after: string) {
    && s == before + core + after && AllBlank(before) && AllBlank(after)
    && (core != "" ==> !Whitespace(core[0]) && !Whitespace(core[|core| - 1]))
  }

  lemma {:induction false} TrimStartExactly(s: string) returns (before: string)
    ensures s == before + TrimStart(s) && AllBlank(before)
    ensures TrimStart(s) != "" ==> !Whitespace(TrimStart(s)[0])
  {
    if s != "" && Whitespace(s[0]) {
      before := TrimStartExactly(s[1..]);
      assert s == [s[0]] + before + TrimStart(s[1..]);
      before := [s[0]] + before;
    } else {
      before := "";
    }
  }

  lemma {:induction false} TrimEndExactly(s: string) returns (after: string)
    ensures s == TrimEnd(s) + after && AllBlank(after)
    ensures TrimEnd(s) != "" ==> !Whitespace(TrimEnd(s)[|TrimEnd(s)| - 1])
  {
    if s != "" && Whitespace(s[|s| - 1]) {
      after := TrimEndExactly(s[..|s| - 1]);
      assert s == TrimEnd(s[..|s| - 1]) + after + [s[|s| - 1]];
      after := after + [s[|s| - 1]];
    } else {
      after := "";
    }
  }

  /** Trimming takes the blanks off both ends and nothing else. */
  lemma {:induction false} TrimExactly(s: string) returns (before: string, after: string)
    ensures TrimsTo(s, before, Trim(s), after)
  {
    before := TrimStartExactly(s);
    after := TrimEndExactly(TrimStart(s));
    assert s == before + (Trim(s) + after) == before + Trim(s) + after;
    if Trim(s) != "" {
      assert Trim(s)[0] == TrimStart(s)[0];
    }
  }

  // ---- the rules ----

  function CategoryOf(f: CreateInput): Category {
    f.terms.category.GetOr(PAID)
  }

  function CostOf(f: CreateInput): int {
    if f.terms.accessCost.Some? then f.terms.accessCost.value else f.terms.entryFee.GetOr(0)
  }

  function SponsorPoolOf(f: CreateInput): int {
    f.terms.sponsorPrizePool.GetOr(0)
  }

  predicate ClosesByCapacity(f: CreateInput) {
    f.terms.registrationCloseMode.GetOr(CAPACITY) == CAPACITY
  }

  /** Entries close with the last of at least two seats, or at a date and without seats. */
  predicate EntriesAdmitted(f: CreateInput) {
    if ClosesByCapacity(f)
    then f.terms.maxParticipants.Some? && f.terms.maxParticipants.value >= 2 && f.entryEndDate.None?
    else f.terms.maxParticipants.None? && f.entryEndDate.Some?
  }

  /** The Mesa lasts a number of rounds, or until a date. */
  predicate DurationAdmitted(f: CreateInput) {
    if f.durationMode.GetOr(ROUNDS) == ROUNDS
    then f.durationRounds.Some? && f.durationRounds.value > 0 && f.endDate.None?
    else f.durationRounds.None? && f.endDate.Some?
  }

  /** A PAID Mesa closes by capacity, costs something, has no sponsor, and is made by a subscriber
      or an administrator; a sponsored one is made by an administrator, names its sponsor and has
      something of him; a FREE one closes by date and moves no money. */
  predicate MoneyAdmitted(f: CreateInput, activePro: bool) {
    match CategoryOf(f)
    case PAID =>
      ClosesByCapacity(f) && CostOf(f) > 0 && SponsorPoolOf(f) == 0 && (f.administrative || activePro)
    case SPONSORED_FREE =>
      f.administrative && Trim(f.terms.sponsorName.GetOr("")) != "" && CostOf(f) >= 0 && SponsorPoolOf(f) > 0
    case FREE => !ClosesByCapacity(f) && CostOf(f) == 0 && SponsorPoolOf(f) == 0
  }

  /** Unless it is FREE, a Mesa explains its prizes in 10 to 500 characters, and has a distribution
      with at most as many prizes as seats. */
  ghost predicate PrizesAdmitted(f: CreateInput) {
    CategoryOf(f) != FREE ==>
      && 10 <= |Trim(f.description)| <= 500
      && exists d ::
        && IsDistribution(d) && f.prizeDistribution == AsJson(d)
        && (f.terms.maxParticipants.Some? ==> |d| <= f.terms.maxParticipants.value)
  }

  /** Start, end of the entries and end follow each other, and the end is still to come; a Mesa
      that is to be published at its start has not started. */
  predicate DatesAdmitted(f: CreateInput, now: Time) {
    && (f.entryEndDate.Some? ==> f.startDate < f.entryEndDate.value)
    && (f.endDate.Some? ==> f.entryEndDate.GetOr(f.startDate) < f.endDate.value && now < f.endDate.value)
    && (f.publishAtStart ==> now < f.startDate)
  }

  ghost predicate FormAdmitted(f: CreateInput, ctx: CreateContext) {
    && EntriesAdmitted(f) && DurationAdmitted(f) && MoneyAdmitted(f, ctx.activePro) && PrizesAdmitted(f)
    && DatesAdmitted(f, ctx.now) && ctx.userExists && |Trim(f.name)| >= 3
  }

  // ---- the checks are the rules ----

  lemma {:induction false} ValidatedTerms(f: CreateInput)
    requires ValidateTerms(f.terms).Ok?
    ensures ValidateTerms(f.terms).value
      == CategoryTerms(CategoryOf(f), CostOf(f), SponsorPoolOf(f), f.terms.maxParticipants,
                       f.terms.registrationCloseMode.GetOr(CAPACITY))
  {}

  lemma {:induction false} PrizesInOrder(f: CreateInput, terms: CategoryTerms)
    requires terms.category == CategoryOf(f) && terms.maxParticipants == f.terms.maxParticipants
    ensures PrizesAdmitted(f)
      <==> (terms.category != FREE ==>
              && PRIZE_RULES_MIN_LENGTH <= |Trim(f.description)| <= PRIZE_RULES_MAX_LENGTH
              && ValidateDistribution(f.prizeDistribution).Ok? && !MorePrizesThanSeatsIn(f.prizeDistribution, terms))
  {
    var validated := ValidateDistribution(f.prizeDistribution);
    if validated.Ok? {
      ValidDistributionsExactly(f.prizeDistribution, validated.value);
    }
    forall d | IsDistribution(d) && f.prizeDistribution == AsJson(d) ensures validated == Ok(d) {
      ValidDistributionsExactly(f.prizeDistribution, d);
    }
  }

  /** The checks after the terms, as one condition. */
  lemma {:induction false} ProblemExactly(f: CreateInput, ctx: CreateContext, terms: CategoryTerms)
    requires ValidateTerms(f.terms) == Ok(terms)
    ensures CreationProblem(f, ctx, terms).None? <==> FormAdmitted(f, ctx)
  {
    ValidatedTerms(f);
    PrizesInOrder(f, terms);
  }

  lemma {:induction false} AdmittedTermsAreValid(f: CreateInput, ctx: CreateContext)
    requires FormAdmitted(f, ctx)
    ensures ValidateTerms(f.terms).Ok?
  {}

  /** A Mesa is created exactly from an admitted form that does not start before today. */
  lemma {:induction false} CreatedExactly(f: CreateInput, ctx: CreateContext)
    ensures CreateMesa(f, ctx).Ok? <==> FormAdmitted(f, ctx) && f.startDate >= ctx.startOfToday
  {
    if ValidateTerms(f.terms).Ok? {
      ProblemExactly(f, ctx, ValidateTerms(f.terms).value);
    } else if FormAdmitted(f, ctx) {
      AdmittedTermsAreValid(f, ctx);
    }
  }

  /** A Mesa is edited exactly while it is a draft, by its owner or an administrator, with an admitted
      form that keeps its start or does not start before today. */
  lemma {:induction false} EditedExactly(m: Mesa, f: CreateInput, ctx: CreateContext)
    ensures EditDraft(m, f, ctx).Ok?
      <==> (&& m.status == MesaStatus.DRAFT && (f.administrative || f.createdBy == m.terms.createdBy)
            && (m.terms.startDate == Some(f.startDate) || f.startDate >= ctx.startOfToday)
            && FormAdmitted(f, ctx))
  {
    DraftAdmits(m, f, ctx.startOfToday);
    if ValidateTerms(f.terms).Ok? {
      EditChecksAsCreation(f, ctx, ValidateTerms(f.terms).value);
      ProblemExactly(f, ctx, ValidateTerms(f.terms).value);
    } else if FormAdmitted(f, ctx) {
      AdmittedTermsAreValid(f, ctx);
    }
  }

  lemma {:induction false} DraftAdmits(m: Mesa, f: CreateInput, startOfToday: Time)
    ensures DraftProblem(m, f, startOfToday).None?
      <==> (&& m.status == MesaStatus.DRAFT && (f.administrative || f.createdBy == m.terms.createdBy)
            && (m.terms.startDate == Some(f.startDate) || f.startDate >= startOfToday))
  {}

  // ---- what a refusal says ----

  function SeatsOf(f: CreateInput): int {
    f.terms.maxParticipants.GetOr(0)
  }

  predicate LastsRounds(f: CreateInput) {
    f.durationMode.GetOr(ROUNDS) == ROUNDS
  }

  ghost predicate NamesADistribution(value: Json) {
    exists d :: IsDistribution(d) && value == AsJson(d)
  }

  ghost predicate MorePrizesThan(value: Json, seats: int) {
    exists d :: IsDistribution(d) && value == AsJson(d) && |d| > seats
  }

  /** What is wrong with the form when a check on its terms is not met. */
  ghost predicate TermsBreak(f: CreateInput, e: CreationError) {
    match e
    case CapacityMissing => ClosesByCapacity(f) && SeatsOf(f) <= 0
    case CapacityInvalid => f.terms.maxParticipants.Some? && SeatsOf(f) <= 0
    case PaidOnlyByCapacity => CategoryOf(f) == PAID && !ClosesByCapacity(f)
    case AccessCostNotPositive => CategoryOf(f) == PAID && CostOf(f) <= 0
    case PaidWithSponsorPool => CategoryOf(f) == PAID && SponsorPoolOf(f) != 0
    case SponsorNameMissing => CategoryOf(f) == SPONSORED_FREE && Trim(f.terms.sponsorName.GetOr("")) == ""
    case AccessCostNegative => CategoryOf(f) == SPONSORED_FREE && CostOf(f) < 0
    case SponsorPoolMissing => CategoryOf(f) == SPONSORED_FREE && SponsorPoolOf(f) <= 0
    case FreeWithMoney => CategoryOf(f) == FREE && !(CostOf(f) == SponsorPoolOf(f) == 0)
    case FreeOnlyByDate => CategoryOf(f) == FREE && ClosesByCapacity(f)
    case FreeWithCapacity => CategoryOf(f) == FREE && f.terms.maxParticipants.Some?
    case _ => false
  }

  /** What is wrong with its schedule. */
  predicate ScheduleBreaks(f: CreateInput, e: CreationError) {
    match e
    case CapacityTooSmall => ClosesByCapacity(f) && SeatsOf(f) < 2
    case EntryEndNotAllowed => ClosesByCapacity(f) && f.entryEndDate.Some?
    case CapacityNotAllowed => !ClosesByCapacity(f) && f.terms.maxParticipants.Some?
    case EntryEndRequired => !ClosesByCapacity(f) && f.entryEndDate.None?
    case RoundsRequired => LastsRounds(f) && f.durationRounds.GetOr(0) == 0
    case EndDateNotAllowed => LastsRounds(f) && f.endDate.Some?
    case EndDateRequired => !LastsRounds(f) && f.endDate.None?
    case RoundsNotAllowed => !LastsRounds(f) && f.durationRounds.Some?
    case _ => false
  }

  /** What is wrong with the rest of it. */
  ghost predicate RestBreaks(f: CreateInput, ctx: CreateContext, e: CreationError) {
    match e
    case PrizeRulesInvalid => CategoryOf(f) != FREE && !(10 <= |Trim(f.description)| <= 500)
    case UserNotFound => !ctx.userExists
    case SponsoredAdminOnly => CategoryOf(f) == SPONSORED_FREE && !f.administrative
    case ProRequired => CategoryOf(f) == PAID && !f.administrative && !ctx.activePro
    case NameTooShort => |Trim(f.name)| < 3
    case EntryEndBeforeStart => f.entryEndDate.Some? && f.entryEndDate.value <= f.startDate
    case EndBeforeEntryEnd => f.endDate.Some? && f.endDate.value <= f.entryEndDate.GetOr(f.startDate)
    case InvalidDistribution => CategoryOf(f) != FREE && !NamesADistribution(f.prizeDistribution)
    case AlreadyClosed => f.endDate.Some? && f.endDate.value <= ctx.now
    case PublicationDateInvalid => f.publishAtStart && f.startDate <= ctx.now
    case MorePrizesThanSeats => CategoryOf(f) != FREE && MorePrizesThan(f.prizeDistribution, SeatsOf(f))
    case RejectedByDatabase => LastsRounds(f) && f.durationRounds.GetOr(0) <= 0
    case _ => false
  }

  ghost predicate Breaks(f: CreateInput, ctx: CreateContext, e: CreationError) {
    TermsBreak(f, e) || ScheduleBreaks(f, e) || RestBreaks(f, ctx, e)
  }

  lemma {:induction false} TermsErrorIsTrue(f: CreateInput)
    requires ValidateTerms(f.terms).Err?
    ensures TermsBreak(f, ValidateTerms(f.terms).error)
  {}

  lemma {:induction false} DistributionIsNamed(value: Json)
    ensures ValidateDistribution(value).Ok? <==> NamesADistribution(value)
    ensures ValidateDistribution(value).Ok? ==>
      IsDistribution(ValidateDistribution(value).value) && value == AsJson(ValidateDistribution(value).value)
  {
    if ValidateDistribution(value).Ok? {
      ValidDistributionsExactly(value, ValidateDistribution(value).value);
    }
    forall d | IsDistribution(d) && value == AsJson(d) ensures ValidateDistribution(value) == Ok(d) {
      ValidDistributionsExactly(value, d);
    }
  }

  lemma {:induction false} ProblemOfPrizesIsTrue(f: CreateInput, ctx: CreateContext, terms: CategoryTerms,
                                                 e: CreationError)
    requires terms.category == CategoryOf(f) && terms.maxParticipants == f.terms.maxParticipants
    requires CreationProblemOfPrizes(f, ctx, terms) == Some(e) || EditProblemOfPrizes(f, ctx, terms) == Some(e)
    ensures RestBreaks(f, ctx, e)
  {
    DistributionIsNamed(f.prizeDistribution);
  }

  function ScheduleProblem(f: CreateInput): Option<CreationError> {
    ScheduleError(f.terms.registrationCloseMode.GetOr(CAPACITY), f.durationMode.GetOr(ROUNDS), f.entryEndDate,
                  f.endDate, f.terms.maxParticipants, f.durationRounds)
  }

  lemma {:induction false} ScheduleErrorIsTrue(f: CreateInput, e: CreationError)
    requires ScheduleProblem(f) == Some(e)
    ensures ScheduleBreaks(f, e)
  {}

  lemma {:induction false} LaterCreationProblemIsTrue(f: CreateInput, ctx: CreateContext, terms: CategoryTerms,
                                                      e: CreationError)
    requires terms.category == CategoryOf(f) && terms.maxParticipants == f.terms.maxParticipants
    requires terms.registrationCloseMode == f.terms.registrationCloseMode.GetOr(CAPACITY)
    requires ScheduleProblem(f).None? && CreationProblem(f, ctx, terms) == Some(e)
    ensures RestBreaks(f, ctx, e)
  {
    if CreationProblemOfPrizes(f, ctx, terms) == Some(e) {
      ProblemOfPrizesIsTrue(f, ctx, terms, e);
    }
  }

  lemma {:induction false} LaterEditProblemIsTrue(f: CreateInput, ctx: CreateContext, terms: CategoryTerms,
                                                  e: CreationError)
    requires terms.category == CategoryOf(f) && terms.maxParticipants == f.terms.maxParticipants
    requires terms.registrationCloseMode == f.terms.registrationCloseMode.GetOr(CAPACITY)
    requires ScheduleProblem(f).None? && EditProblem(f, ctx, terms) == Some(e)
    ensures RestBreaks(f, ctx, e)
  {
    if EditProblemOfPrizes(f, ctx, terms) == Some(e) {
      ProblemOfPrizesIsTrue(f, ctx, terms, e);
    }
  }

  lemma {:induction false} CreationProblemIsTrue(f: CreateInput, ctx: CreateContext, terms: CategoryTerms,
                                                 e: CreationError)
    requires ValidateTerms(f.terms) == Ok(terms) && CreationProblem(f, ctx, terms) == Some(e)
    ensures Breaks(f, ctx, e)
  {
    ValidatedTerms(f);
    if ScheduleProblem(f).Some? {
      ScheduleErrorIsTrue(f, e);
    } else {
      LaterCreationProblemIsTrue(f, ctx, terms, e);
    }
  }

  lemma {:induction false} EditProblemIsTrue(f: CreateInput, ctx: CreateContext, terms: CategoryTerms, e: CreationError)
    requires ValidateTerms(f.terms) == Ok(terms) && EditProblem(f, ctx, terms) == Some(e)
    ensures Breaks(f, ctx, e)
  {
    ValidatedTerms(f);
    if ScheduleProblem(f).Some? {
      ScheduleErrorIsTrue(f, e);
    } else {
      LaterEditProblemIsTrue(f, ctx, terms, e);
    }
  }

  /** A refused form breaks the rule that the refusal names. */
  lemma {:induction false} RefusalIsTrue(f: CreateInput, ctx: CreateContext)
    requires CreateMesa(f, ctx).Err?
    ensures var e := CreateMesa(f, ctx).error;
      Breaks(f, ctx, e) || (e == StartDateInPast && f.startDate < ctx.startOfToday)
  {
    if f.startDate >= ctx.startOfToday {
      if ValidateTerms(f.terms).Err? {
        TermsErrorIsTrue(f);
      } else {
        CreationProblemIsTrue(f, ctx, ValidateTerms(f.terms).value, CreateMesa(f, ctx).error);
      }
    }
  }

  /** So does a refused edit, unless it is the draft that cannot be edited so. */
  lemma {:induction false} EditRefusalIsTrue(m: Mesa, f: CreateInput, ctx: CreateContext)
    requires EditDraft(m, f, ctx).Err?
    ensures var e := EditDraft(m, f, ctx).error;
      || Breaks(f, ctx, e)
      || (e == NotTheOwner && !f.administrative && f.createdBy != m.terms.createdBy)
      || (e == NotADraft && m.status != MesaStatus.DRAFT)
      || (e == StartDateInPast && f.startDate < ctx.startOfToday && m.terms.startDate != Some(f.startDate))
  {
    if DraftProblem(m, f, ctx.startOfToday).None? {
      if ValidateTerms(f.terms).Err? {
        TermsErrorIsTrue(f);
      } else {
        EditProblemIsTrue(f, ctx, ValidateTerms(f.terms).value, EditDraft(m, f, ctx).error);
      }
    }
  }

  // ---- what the form makes of the Mesa ----

  /** The terms are those of the form, and of the owner. */
  function TermsOf(f: CreateInput, owner: UserId, byAdmin: bool): Terms {
    Terms(
      createdBy := owner, createdByAdmin := byAdmin, category := CategoryOf(f),
      eligibility := f.eligibility.GetOr(SUBSCRIBERS_ONLY),
      registrationCloseMode := f.terms.registrationCloseMode.GetOr(CAPACITY),
      durationMode := f.durationMode.GetOr(ROUNDS), durationRounds := f.durationRounds,
      description := Trim(f.description), entryFee := CostOf(f), accessCost := Some(CostOf(f)),
      sponsorPrizePool := SponsorPoolOf(f),
      prizeDistribution := if CategoryOf(f) == FREE then Array([]) else f.prizeDistribution,
      maxParticipants := f.terms.maxParticipants, startDate := Some(f.startDate), entryEndDate := f.entryEndDate)
  }

  /** Nothing has been collected; the sponsor's pool is there from the start. */
  function EmptyCounters(f: CreateInput): Counters {
    var pool := if CategoryOf(f) == SPONSORED_FREE then SponsorPoolOf(f) else 0;
    Counters(0, 0, Pools(0, pool, Some(pool)))
  }

  lemma {:induction false} StoredAsGiven(f: CreateInput)
    requires ValidateDistribution(f.prizeDistribution).Ok?
    ensures AsJson(ValidateDistribution(f.prizeDistribution).value) == f.prizeDistribution
  {
    ValidDistributionsExactly(f.prizeDistribution, ValidateDistribution(f.prizeDistribution).value);
  }

  lemma {:induction false} NewTermsAre(f: CreateInput, ctx: CreateContext, terms: CategoryTerms)
    requires FormAdmitted(f, ctx) && ValidateTerms(f.terms) == Ok(terms)
    ensures NewTerms(f, terms, Trim(f.description), StoredDistribution(f.prizeDistribution, terms.category))
      == TermsOf(f, f.createdBy, f.administrative)
    ensures NewCounters(terms) == EmptyCounters(f)
  {
    ValidatedTerms(f);
    if CategoryOf(f) != FREE {
      PrizesInOrder(f, terms);
      StoredAsGiven(f);
    }
  }

  /** A created Mesa is an empty draft with the terms of the form. */
  lemma {:induction false} CreatedMesaIs(f: CreateInput, ctx: CreateContext, m: Mesa)
    requires CreateMesa(f, ctx) == Ok(m)
    ensures m == Mesa(TermsOf(f, f.createdBy, f.administrative), MesaStatus.DRAFT, None, EmptyCounters(f),
                      Milestones(None, None, Some(WAITING_FOR_REGISTRATION_CLOSE), None, f.endDate), [])
  {
    CreatedExactly(f, ctx);
    NewTermsAre(f, ctx, ValidateTerms(f.terms).value);
  }

  lemma {:induction false} EditedAs(m: Mesa, f: CreateInput, terms: CategoryTerms, after: Mesa, t: Terms, c: Counters)
    requires after == Edited(m, f, terms) && m.counters.currentParticipants == c.currentParticipants
    requires t == NewTerms(f, terms, Trim(f.description), StoredDistribution(f.prizeDistribution, terms.category))
    requires c == NewCounters(terms)
    ensures after == m.(terms := t.(createdBy := m.terms.createdBy, createdByAdmin := m.terms.createdByAdmin),
                        counters := c, milestones := m.milestones.(endDate := f.endDate))
  {}

  /** An edited draft has the terms of the form, but keeps its owner. */
  lemma {:induction false} EditedMesaIs(b: Book, m: Mesa, f: CreateInput, ctx: CreateContext, after: Mesa)
    requires MesaOk(b, m) && EditDraft(m, f, ctx) == Ok(after)
    ensures after == Mesa(TermsOf(f, m.terms.createdBy, m.terms.createdByAdmin), MesaStatus.DRAFT, None,
                          EmptyCounters(f), m.milestones.(endDate := f.endDate), [])
  {
    var terms := ValidateTerms(f.terms).value;
    EditedExactly(m, f, ctx);
    DraftIsNew(b, m);
    NewTermsAre(f, ctx, terms);
    EditEdits(m, f, ctx, terms, after);
    EditedAs(m, f, terms, after, TermsOf(f, f.createdBy, f.administrative), EmptyCounters(f));
  }
}
