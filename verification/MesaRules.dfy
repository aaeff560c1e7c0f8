/** What a Mesa may be: category terms, schedule, registration window, creation. */
module MesaRules {
  import opened Collections
  import opened Tiebreak
  import opened Prize
  import opened Domain

  // ---- String.prototype.trim ----

  predicate Whitespace(c: char) {
    var n := c as int;
    || 0x9 <= n <= 0xD || n == 0x20 || n == 0xA0 || n == 0x1680 || 0x2000 <= n <= 0x200A
    || n == 0x2028 || n == 0x2029 || n == 0x202F || n == 0x205F || n == 0x3000 || n == 0xFEFF
  }

  function TrimStart(s: string): string {
    if s != "" && Whitespace(s[0]) then TrimStart(s[1..]) else s
  }

  function TrimEnd(s: string): string {
    if s != "" && Whitespace(s[|s| - 1]) then TrimEnd(s[..|s| - 1]) else s
  }

  function Trim(s: string): string {
    TrimEnd(TrimStart(s))
  }

  lemma {:induction false} TrimStartStops(s: string)
    ensures TrimStart(s) != "" ==> !Whitespace(TrimStart(s)[0])
  {
    if s != "" && Whitespace(s[0]) {
      TrimStartStops(s[1..]);
    }
  }

  lemma {:induction false} TrimEndKeepsStart(s: string)
    requires s != "" && !Whitespace(s[0])
    ensures TrimEnd(s) != "" && TrimEnd(s)[0] == s[0] && !Whitespace(TrimEnd(s)[|TrimEnd(s)| - 1])
  {
    if Whitespace(s[|s| - 1]) {
      TrimEndKeepsStart(s[..|s| - 1]);
    }
  }

  lemma {:induction false} TrimTwice(s: string)
    ensures Trim(Trim(s)) == Trim(s)
  {
    TrimStartStops(s);
    if TrimStart(s) != "" {
      TrimEndKeepsStart(TrimStart(s));
    }
  }

  // ---- category terms ----

  datatype TermsInput = TermsInput(
    category: Option<Category>,
    accessCost: Option<int>,
    entryFee: Option<int>,
    sponsorPrizePool: Option<int>,
    sponsorName: Option<string>,
    maxParticipants: Option<int>,
    registrationCloseMode: Option<CloseMode>)

  datatype CategoryTerms = CategoryTerms(
    category: Category,
    accessCost: int,
    sponsorPrizePool: int,
    maxParticipants: Option<int>,
    registrationCloseMode: CloseMode)

  datatype CreationError =
    | StartDateInPast | CapacityMissing | CapacityInvalid | PaidOnlyByCapacity | AccessCostNotPositive
    | PaidWithSponsorPool | SponsorNameMissing | AccessCostNegative | SponsorPoolMissing
    | FreeWithMoney | FreeOnlyByDate | FreeWithCapacity
    | CapacityTooSmall | EntryEndNotAllowed | CapacityNotAllowed | EntryEndRequired
    | RoundsRequired | EndDateNotAllowed | EndDateRequired | RoundsNotAllowed
    | PrizeRulesInvalid | UserNotFound | SponsoredAdminOnly | ProRequired | NameTooShort
    | EntryEndBeforeStart | EndBeforeEntryEnd | InvalidDistribution | AlreadyClosed
    | PublicationDateInvalid | MorePrizesThanSeats | RejectedByDatabase | NotTheOwner | NotADraft

  function ValidateTerms(value: TermsInput): Result<CategoryTerms, CreationError> {
    var category := value.category.GetOr(PAID);
    var accessCost := value.accessCost.GetOr(value.entryFee.GetOr(0));
    var sponsorPrizePool := value.sponsorPrizePool.GetOr(0);
    var maxParticipants := value.maxParticipants;
    var mode := value.registrationCloseMode.GetOr(CAPACITY);
    if mode == CAPACITY && (maxParticipants.None? || maxParticipants.value <= 0) then Err(CapacityMissing)
    else if maxParticipants.Some? && maxParticipants.value <= 0 then Err(CapacityInvalid)
    else if category == PAID && mode != CAPACITY then Err(PaidOnlyByCapacity)
    else if category == PAID && accessCost <= 0 then Err(AccessCostNotPositive)
    else if category == PAID && sponsorPrizePool != 0 then Err(PaidWithSponsorPool)
    else if category == SPONSORED_FREE && Trim(value.sponsorName.GetOr("")) == "" then Err(SponsorNameMissing)
    else if category == SPONSORED_FREE && accessCost < 0 then Err(AccessCostNegative)
    else if category == SPONSORED_FREE && sponsorPrizePool <= 0 then Err(SponsorPoolMissing)
    else if category == FREE && (accessCost != 0 || sponsorPrizePool != 0) then Err(FreeWithMoney)
    else if category == FREE && mode != DATE then Err(FreeOnlyByDate)
    else if category == FREE && maxParticipants.Some? then Err(FreeWithCapacity)
    else Ok(CategoryTerms(category, accessCost, sponsorPrizePool, maxParticipants, mode))
  }

  /** `None` when the schedule is allowed. Zero counts as absent, as `!value` does. */
  function ScheduleError(mode: CloseMode, duration: DurationMode, entryEndDate: Option<Time>,
                         endDate: Option<Time>, maxParticipants: Option<int>, durationRounds: Option<int>)
    : Option<CreationError>
  {
    if mode == CAPACITY && (maxParticipants.GetOr(0) == 0 || maxParticipants.value < 2) then Some(CapacityTooSmall)
    else if mode == CAPACITY && entryEndDate.Some? then Some(EntryEndNotAllowed)
    else if mode == DATE && maxParticipants.Some? then Some(CapacityNotAllowed)
    else if mode == DATE && entryEndDate.None? then Some(EntryEndRequired)
    else if duration == ROUNDS && durationRounds.GetOr(0) == 0 then Some(RoundsRequired)
    else if duration == ROUNDS && endDate.Some? then Some(EndDateNotAllowed)
    else if duration == UNTIL_DATE && endDate.None? then Some(EndDateRequired)
    else if duration == UNTIL_DATE && durationRounds.Some? then Some(RoundsNotAllowed)
    else None
  }

  // ---- registration window ----

  predicate NotClosed(entryEndDate: Option<Time>, endDate: Option<Time>, now: Time) {
    var closesAt := if entryEndDate.Some? then entryEndDate else endDate;
    closesAt.None? || closesAt.value > now
  }

  predicate RegistrationOpen(m: Mesa, now: Time) {
    && (m.terms.startDate.Some? ==> m.terms.startDate.value <= now)
    && NotClosed(m.terms.entryEndDate, m.milestones.endDate, now)
  }

  function BaselineAt(m: Mesa, now: Time): Time {
    m.terms.startDate.GetOr(now)
  }

  /** `assertCapacity` passes. */
  predicate HasFreeSeat(m: Mesa) {
    var max := m.terms.maxParticipants;
    max.Some? && max.value > 0 && m.counters.currentParticipants < max.value
  }

  predicate Eligible(eligibility: Eligibility, activePro: bool) {
    eligibility == ALL || (eligibility == SUBSCRIBERS_ONLY && activePro) || (eligibility == FREE_ONLY && !activePro)
  }

  // ---- creation ----

  datatype CreateInput = CreateInput(
    createdBy: UserId,
    administrative: bool,
    name: string,
    description: string,
    terms: TermsInput,
    eligibility: Option<Eligibility>,
    durationMode: Option<DurationMode>,
    durationRounds: Option<int>,
    prizeDistribution: Json,
    startDate: Time,
    entryEndDate: Option<Time>,
    endDate: Option<Time>,
    publishAtStart: bool)

  /** What the service looks up outside the request: the clock, the first instant of the
      current day in Sao Paulo, and the requesting user. */
  datatype CreateContext = CreateContext(now: Time, startOfToday: Time, userExists: bool, activePro: bool)

  const PRIZE_RULES_MIN_LENGTH := 10
  const PRIZE_RULES_MAX_LENGTH := 500

  /** `CHECK` constraints of the table that the service itself does not repeat. */
  predicate AcceptedByDatabase(duration: DurationMode, durationRounds: Option<int>) {
    duration == ROUNDS ==> durationRounds.Some? && durationRounds.value > 0
  }

  function NewTerms(input: CreateInput, terms: CategoryTerms, description: string, distribution: Json): Terms {
    Terms(
      createdBy := input.createdBy,
      createdByAdmin := input.administrative,
      category := terms.category,
      eligibility := input.eligibility.GetOr(SUBSCRIBERS_ONLY),
      registrationCloseMode := terms.registrationCloseMode,
      durationMode := input.durationMode.GetOr(ROUNDS),
      durationRounds := input.durationRounds,
      description := description,
      entryFee := terms.accessCost,
      accessCost := Some(terms.accessCost),
      sponsorPrizePool := terms.sponsorPrizePool,
      prizeDistribution := distribution,
      maxParticipants := terms.maxParticipants,
      startDate := Some(input.startDate),
      entryEndDate := input.entryEndDate)
  }

  function NewCounters(terms: CategoryTerms): Counters {
    var empty := CalculatePool(0);
    var prizePool := if terms.category == SPONSORED_FREE then terms.sponsorPrizePool else empty.prizePool;
    Counters(0, 0, Pools(empty.platformFee, prizePool, Some(prizePool)))
  }

  function NewMesa(terms: Terms, counters: Counters, endDate: Option<Time>): Mesa {
    Mesa(terms, DRAFT, None, counters,
         Milestones(None, None, Some(WAITING_FOR_REGISTRATION_CLOSE), None, endDate), [])
  }

  /** The checks on the prizes and the rest, after the others. */
  function CreationProblemOfPrizes(input: CreateInput, ctx: CreateContext, terms: CategoryTerms)
    : Option<CreationError>
  {
    if terms.category != FREE && ValidateDistribution(input.prizeDistribution).Err? then Some(InvalidDistribution)
    else if !NotClosed(None, input.endDate, ctx.now) then Some(AlreadyClosed)
    else if input.publishAtStart && input.startDate <= ctx.now then Some(PublicationDateInvalid)
    else if MorePrizesThanSeatsIn(input.prizeDistribution, terms) then Some(MorePrizesThanSeats)
    else if !AcceptedByDatabase(input.durationMode.GetOr(ROUNDS), input.durationRounds) then Some(RejectedByDatabase)
    else None
  }

  /** The checks after the terms, in the order in which the service makes them. */
  function CreationProblem(input: CreateInput, ctx: CreateContext, terms: CategoryTerms): Option<CreationError> {
    var schedule := ScheduleError(terms.registrationCloseMode, input.durationMode.GetOr(ROUNDS), input.entryEndDate,
                                  input.endDate, terms.maxParticipants, input.durationRounds);
    var length := |Trim(input.description)|;
    if schedule.Some? then schedule
    else if terms.category != FREE && !(PRIZE_RULES_MIN_LENGTH <= length <= PRIZE_RULES_MAX_LENGTH)
    then Some(PrizeRulesInvalid)
    else if !ctx.userExists then Some(UserNotFound)
    else if terms.category == SPONSORED_FREE && !input.administrative then Some(SponsoredAdminOnly)
    else if terms.category == PAID && !input.administrative && !ctx.activePro then Some(ProRequired)
    else if |Trim(input.name)| < 3 then Some(NameTooShort)
    else if input.entryEndDate.Some? && input.entryEndDate.value <= input.startDate then Some(EntryEndBeforeStart)
    else if input.endDate.Some? && input.endDate.value <= input.entryEndDate.GetOr(input.startDate)
    then Some(EndBeforeEntryEnd)
    else CreationProblemOfPrizes(input, ctx, terms)
  }

  predicate MorePrizesThanSeatsIn(distribution: Json, terms: CategoryTerms) {
    && terms.category != FREE && terms.maxParticipants.Some?
    && var validated := ValidateDistribution(distribution);
      validated.Ok? && |validated.value| > terms.maxParticipants.value
  }

  /** The distribution as it is stored: validated, or empty for a free Mesa. */
  function StoredDistribution(distribution: Json, category: Category): Json {
    var validated := ValidateDistribution(distribution);
    if category == FREE || validated.Err? then Array([]) else AsJson(validated.value)
  }

  function CreateMesa(input: CreateInput, ctx: CreateContext): Result<Mesa, CreationError> {
    var validated := ValidateTerms(input.terms);
    if input.startDate < ctx.startOfToday then Err(StartDateInPast)
    else if validated.Err? then Err(validated.error)
    else
      var problem := CreationProblem(input, ctx, validated.value);
      if problem.Some? then Err(problem.value)
      else
        var stored := StoredDistribution(input.prizeDistribution, validated.value.category);
        Ok(NewMesa(NewTerms(input, validated.value, Trim(input.description), stored), NewCounters(validated.value),
          input.endDate))
  }

  // ---- editing a draft ----

  /** A start date may be kept as it is; a new one starts today or later. */
  predicate StartDateAccepted(m: Mesa, startDate: Time, startOfToday: Time) {
    m.terms.startDate == Some(startDate) || startDate >= startOfToday
  }

  /** The checks after the terms, in the order in which the editing service makes them. */
  function EditProblem(input: CreateInput, ctx: CreateContext, terms: CategoryTerms): Option<CreationError> {
    var schedule := ScheduleError(terms.registrationCloseMode, input.durationMode.GetOr(ROUNDS), input.entryEndDate,
                                  input.endDate, terms.maxParticipants, input.durationRounds);
    var length := |Trim(input.description)|;
    if schedule.Some? then schedule
    else if !ctx.userExists then Some(UserNotFound)
    else if terms.category == SPONSORED_FREE && !input.administrative then Some(SponsoredAdminOnly)
    else if terms.category == PAID && !input.administrative && !ctx.activePro then Some(ProRequired)
    else if terms.category != FREE && !(PRIZE_RULES_MIN_LENGTH <= length <= PRIZE_RULES_MAX_LENGTH)
    then Some(PrizeRulesInvalid)
    else if |Trim(input.name)| < 3 then Some(NameTooShort)
    else if input.entryEndDate.Some? && input.entryEndDate.value <= input.startDate then Some(EntryEndBeforeStart)
    else if input.endDate.Some? && input.endDate.value <= input.entryEndDate.GetOr(input.startDate)
    then Some(EndBeforeEntryEnd)
    else EditProblemOfPrizes(input, ctx, terms)
  }

  function EditProblemOfPrizes(input: CreateInput, ctx: CreateContext, terms: CategoryTerms): Option<CreationError> {
    if !NotClosed(None, input.endDate, ctx.now) then Some(AlreadyClosed)
    else if terms.category != FREE && ValidateDistribution(input.prizeDistribution).Err? then Some(InvalidDistribution)
    else if MorePrizesThanSeatsIn(input.prizeDistribution, terms) then Some(MorePrizesThanSeats)
    else if input.publishAtStart && input.startDate <= ctx.now then Some(PublicationDateInvalid)
    else if !AcceptedByDatabase(input.durationMode.GetOr(ROUNDS), input.durationRounds) then Some(RejectedByDatabase)
    else None
  }

  /** The draft with its new terms; its owner and its participants stay. */
  function Edited(m: Mesa, input: CreateInput, terms: CategoryTerms): Mesa {
    var stored := StoredDistribution(input.prizeDistribution, terms.category);
    m.(terms := NewTerms(input, terms, Trim(input.description), stored).(
         createdBy := m.terms.createdBy, createdByAdmin := m.terms.createdByAdmin),
       counters := NewCounters(terms).(currentParticipants := m.counters.currentParticipants),
       milestones := m.milestones.(endDate := input.endDate))
  }

  /** The checks on the draft itself, which come first; an administrator may edit anybody's. */
  function DraftProblem(m: Mesa, input: CreateInput, startOfToday: Time): Option<CreationError> {
    if !input.administrative && m.terms.createdBy != input.createdBy then Some(NotTheOwner)
    else if m.status != DRAFT then Some(NotADraft)
    else if !StartDateAccepted(m, input.startDate, startOfToday) then Some(StartDateInPast)
    else None
  }

  /** `input.createdBy` is the requesting user. */
  function EditDraft(m: Mesa, input: CreateInput, ctx: CreateContext): Result<Mesa, CreationError> {
    var problem, validated := DraftProblem(m, input, ctx.startOfToday), ValidateTerms(input.terms);
    if problem.Some? then Err(problem.value)
    else if validated.Err? then Err(validated.error)
    else EditOrProblem(m, input, validated.value, EditProblem(input, ctx, validated.value))
  }

  function EditOrProblem(m: Mesa, input: CreateInput, terms: CategoryTerms, problem: Option<CreationError>)
    : Result<Mesa, CreationError>
  {
    if problem.Some? then Err(problem.value) else Ok(Edited(m, input, terms))
  }
}
