/** The integrity check that guards the settlement of a Mesa. */
module MesaIntegrity {
  import opened Collections
  import opened Prize
  import opened Domain
  import opened MesaRules

  datatype Issue =
    | INVALID_PAID_ACCESS_COST | INVALID_PAID_SPONSOR_POOL
    | INVALID_SPONSORED_ACCESS_COST | INVALID_SPONSORED_PRIZE_POOL
    | INVALID_FREE_FINANCIAL_TERMS
    | MISSING_PARTICIPANT_LIMIT | INVALID_PARTICIPANT_LIMIT
    | PARTICIPANT_COUNT_MISMATCH | CAPACITY_EXCEEDED
    | ACCESS_COST_COMPATIBILITY_MISMATCH | REWARD_POOL_COMPATIBILITY_MISMATCH
    | MISSING_PRIZE_RULES | INVALID_PRIZE_DISTRIBUTION
    | APPROVED_ENTRY_NOT_PAID | GROSS_COLLECTED_MISMATCH | PRIZE_TOTALS_MISMATCH

  function If(condition: bool, issue: Issue): seq<Issue> {
    if condition then [issue] else []
  }

  predicate PaidInFull(p: Participant, cost: int) {
    p.entryPaidAt.Some? && p.entryFeePaid == cost
  }

  function CountUnpaid(approved: seq<Participant>, cost: int): nat {
    if approved == [] then 0
    else CountUnpaid(approved[..|approved| - 1], cost) + if PaidInFull(approved[|approved| - 1], cost) then 0 else 1
  }

  function SumPaid(approved: seq<Participant>, cost: int): int {
    if approved == [] then 0
    else
      var last := approved[|approved| - 1];
      SumPaid(approved[..|approved| - 1], cost) + if PaidInFull(last, cost) then last.entryFeePaid else 0
  }

  /** The fee and the prize that a Mesa must show for what it has collected. */
  function ExpectedTotals(t: Terms, grossCollected: int): Pool {
    var entry := CalculatePool(grossCollected);
    match t.category
    case SPONSORED_FREE => entry.(prizePool := t.sponsorPrizePool + entry.prizePool)
    case FREE => Pool(0, 0)
    case PAID => entry
  }

  function TermsIssues(t: Terms): seq<Issue> {
    match t.category
    case PAID =>
      If(AccessCost(t) <= 0, INVALID_PAID_ACCESS_COST) + If(t.sponsorPrizePool != 0, INVALID_PAID_SPONSOR_POOL)
    case SPONSORED_FREE =>
      If(AccessCost(t) < 0, INVALID_SPONSORED_ACCESS_COST)
        + If(t.sponsorPrizePool <= 0, INVALID_SPONSORED_PRIZE_POOL)
    case FREE =>
      If(AccessCost(t) != 0 || t.sponsorPrizePool != 0, INVALID_FREE_FINANCIAL_TERMS)
  }

  function SeatIssues(m: Mesa): seq<Issue> {
    var (max, current) := (m.terms.maxParticipants, m.counters.currentParticipants);
    (if ByCapacity(m.terms) && max.None? then [MISSING_PARTICIPANT_LIMIT]
     else If(max.Some? && max.value <= 0, INVALID_PARTICIPANT_LIMIT))
      + If(current != |Approved(m.participants)|, PARTICIPANT_COUNT_MISMATCH)
      + If(max.Some? && current > max.value, CAPACITY_EXCEEDED)
  }

  function CompatibilityIssues(t: Terms, p: Pools): seq<Issue> {
    If(t.accessCost.Some? && t.accessCost.value != t.entryFee, ACCESS_COST_COMPATIBILITY_MISMATCH)
      + If(p.rewardPool.Some? && p.rewardPool.value != p.prizePool, REWARD_POOL_COMPATIBILITY_MISMATCH)
      + If(Trim(t.description) == "", MISSING_PRIZE_RULES)
      + If(t.category != FREE && ValidateDistribution(t.prizeDistribution).Err?, INVALID_PRIZE_DISTRIBUTION)
  }

  function MoneyIssues(t: Terms, c: Counters, approved: seq<Participant>): seq<Issue> {
    var (cost, totals) := (AccessCost(t), ExpectedTotals(t, c.grossCollected));
    If(HasPaidEntry(t) && CountUnpaid(approved, cost) > 0, APPROVED_ENTRY_NOT_PAID)
      + If(c.grossCollected != (if HasPaidEntry(t) then SumPaid(approved, cost) else 0), GROSS_COLLECTED_MISMATCH)
      + If(c.pools.platformFee != totals.platformFee || c.pools.rewardPool.GetOr(c.pools.prizePool) != totals.prizePool,
           PRIZE_TOTALS_MISMATCH)
  }

  function Inspect(m: Mesa): seq<Issue> {
    TermsIssues(m.terms) + SeatIssues(m) + CompatibilityIssues(m.terms, m.counters.pools)
      + MoneyIssues(m.terms, m.counters, Approved(m.participants))
  }

  // ---- the service ----

  method InspectTerms(t: Terms) returns (issues: seq<Issue>)
    ensures issues == TermsIssues(t)
  {
    issues := [];
    var accessCost := AccessCost(t);
    if t.category == PAID {
      if accessCost <= 0 {
        issues := issues + [INVALID_PAID_ACCESS_COST];
      }
      if t.sponsorPrizePool != 0 {
        issues := issues + [INVALID_PAID_SPONSOR_POOL];
      }
    } else if t.category == SPONSORED_FREE {
      if accessCost < 0 {
        issues := issues + [INVALID_SPONSORED_ACCESS_COST];
      }
      if t.sponsorPrizePool <= 0 {
        issues := issues + [INVALID_SPONSORED_PRIZE_POOL];
      }
    } else if accessCost != 0 || t.sponsorPrizePool != 0 {
      issues := issues + [INVALID_FREE_FINANCIAL_TERMS];
    }
  }

  method InspectSeats(m: Mesa) returns (issues: seq<Issue>)
    ensures issues == SeatIssues(m)
  {
    issues := [];
    var max, current := m.terms.maxParticipants, m.counters.currentParticipants;
    if ByCapacity(m.terms) && max.None? {
      issues := issues + [MISSING_PARTICIPANT_LIMIT];
    } else if max.Some? && max.value <= 0 {
      issues := issues + [INVALID_PARTICIPANT_LIMIT];
    }
    if current != |Approved(m.participants)| {
      issues := issues + [PARTICIPANT_COUNT_MISMATCH];
    }
    if max.Some? && current > max.value {
      issues := issues + [CAPACITY_EXCEEDED];
    }
  }

  method InspectCompatibility(t: Terms, p: Pools) returns (issues: seq<Issue>)
    ensures issues == CompatibilityIssues(t, p)
  {
    issues := [];
    if t.accessCost.Some? && t.accessCost.value != t.entryFee {
      issues := issues + [ACCESS_COST_COMPATIBILITY_MISMATCH];
    }
    if p.rewardPool.Some? && p.rewardPool.value != p.prizePool {
      issues := issues + [REWARD_POOL_COMPATIBILITY_MISMATCH];
    }
    if Trim(t.description) == "" {
      issues := issues + [MISSING_PRIZE_RULES];
    }
    if t.category != FREE {
      var validated := ValidateDistribution(t.prizeDistribution);
      if validated.Err? {
        issues := issues + [INVALID_PRIZE_DISTRIBUTION];
      }
    }
  }

  method InspectMoney(t: Terms, c: Counters, approved: seq<Participant>) returns (issues: seq<Issue>)
    ensures issues == MoneyIssues(t, c, approved)
  {
    issues := [];
    var accessCost, paid := AccessCost(t), HasPaidEntry(t);
    var unpaid := if paid then CountUnpaid(approved, accessCost) else 0;
    if unpaid > 0 {
      issues := issues + [APPROVED_ENTRY_NOT_PAID];
    }
    var expectedGross := if paid then SumPaid(approved, accessCost) else 0;
    if c.grossCollected != expectedGross {
      issues := issues + [GROSS_COLLECTED_MISMATCH];
    }
    var totals := ExpectedTotals(t, c.grossCollected);
    if c.pools.platformFee != totals.platformFee || c.pools.rewardPool.GetOr(c.pools.prizePool) != totals.prizePool {
      issues := issues + [PRIZE_TOTALS_MISMATCH];
    }
  }

  /** The service pushes what it finds onto one list. */
  method InspectMesa(m: Mesa) returns (issues: seq<Issue>)
    ensures issues == Inspect(m)
  {
    issues := InspectTerms(m.terms);
    var seats := InspectSeats(m);
    var compatibility := InspectCompatibility(m.terms, m.counters.pools);
    var money := InspectMoney(m.terms, m.counters, Approved(m.participants));
    issues := issues + seats + compatibility + money;
  }

  // ---- what an empty report means ----

  /** The terms are those of the category. */
  ghost predicate SoundTerms(t: Terms) {
    match t.category
    case PAID => SoundLimits(t) && SoundPrizes(t) && AccessCost(t) > 0 && t.sponsorPrizePool == 0
    case SPONSORED_FREE => SoundLimits(t) && SoundPrizes(t) && AccessCost(t) >= 0 && t.sponsorPrizePool > 0
    case FREE => SoundLimits(t) && AccessCost(t) == 0 && t.sponsorPrizePool == 0
  }

  ghost predicate SoundLimits(t: Terms) {
    && (t.accessCost.Some? ==> t.accessCost.value == t.entryFee)
    && (t.maxParticipants.Some? ==> t.maxParticipants.value > 0)
    && (ByCapacity(t) ==> t.maxParticipants.Some?)
  }

  predicate SoundPrizes(t: Terms) {
    ValidateDistribution(t.prizeDistribution).Ok?
  }

  /** The counters say what the participants' rows say. */
  ghost predicate SoundSeats(m: Mesa) {
    && m.counters.currentParticipants == ApprovedCount(m.participants)
    && (m.terms.maxParticipants.Some? ==> m.counters.currentParticipants <= m.terms.maxParticipants.value)
    && (HasPaidEntry(m.terms) ==>
      forall p :: p in m.participants && p.status == APPROVED ==> PaidInFull(p, AccessCost(m.terms)))
  }

  /** What `n` paid entries bring. */
  function EntryRevenue(t: Terms, n: nat): int {
    if n == 0 then 0 else EntryRevenue(t, n - 1) + if HasPaidEntry(t) then AccessCost(t) else 0
  }

  lemma {:induction false} EntryRevenueIsProduct(t: Terms, n: nat)
    ensures EntryRevenue(t, n) == if HasPaidEntry(t) then AccessCost(t) * n else 0
  {
    if n > 0 {
      EntryRevenueIsProduct(t, n - 1);
    }
  }

  /** The pools say what `n` approved participants have brought. */
  ghost predicate SoundPools(t: Terms, c: Counters, n: nat) {
    c.grossCollected == EntryRevenue(t, n) && ShowsTotals(c.pools, ExpectedTotals(t, c.grossCollected))
  }

  predicate ShowsTotals(p: Pools, totals: Pool) {
    && p.platformFee == totals.platformFee
    && p.prizePool == totals.prizePool
    && p.rewardPool.GetOr(p.prizePool) == totals.prizePool
  }

  lemma {:induction false} NobodyUnpaid(approved: seq<Participant>, cost: int)
    ensures CountUnpaid(approved, cost) == 0 <==> forall p :: p in approved ==> PaidInFull(p, cost)
    ensures CountUnpaid(approved, cost) == 0 ==> SumPaid(approved, cost) == cost * |approved|
  {
    if approved != [] {
      NobodyUnpaid(approved[..|approved| - 1], cost);
      assert approved == approved[..|approved| - 1] + [approved[|approved| - 1]];
    }
  }

  /** The report is empty exactly for a described Mesa with sound terms, seats and pools. */
  lemma {:induction false} EmptyReportExactly(m: Mesa)
    ensures Inspect(m) == []
      <==> (&& SoundTerms(m.terms) && SoundSeats(m)
            && SoundPools(m.terms, m.counters, ApprovedCount(m.participants)) && Trim(m.terms.description) != "")
  {
    NobodyUnpaid(Approved(m.participants), AccessCost(m.terms));
    EntryRevenueIsProduct(m.terms, ApprovedCount(m.participants));
  }

  // ---- issue by issue ----

  /** Fee and prize as they should be: a tenth of what was collected and the rest, with what the
      sponsor adds; nothing for a FREE Mesa. */
  function SoundFee(t: Terms, gross: int): int {
    if t.category == FREE then 0 else gross / 10
  }

  function SoundPrize(t: Terms, gross: int): int {
    if t.category == FREE then 0
    else gross - gross / 10 + if t.category == SPONSORED_FREE then t.sponsorPrizePool else 0
  }

  /** What each issue means. */
  ghost predicate IsReported(m: Mesa, issue: Issue) {
    var (t, c, max) := (m.terms, m.counters, m.terms.maxParticipants);
    var cost := if t.accessCost.Some? then t.accessCost.value else t.entryFee;
    match issue
    case INVALID_PAID_ACCESS_COST => t.category == PAID && cost <= 0
    case INVALID_PAID_SPONSOR_POOL => t.category == PAID && t.sponsorPrizePool != 0
    case INVALID_SPONSORED_ACCESS_COST => t.category == SPONSORED_FREE && cost < 0
    case INVALID_SPONSORED_PRIZE_POOL => t.category == SPONSORED_FREE && t.sponsorPrizePool <= 0
    case INVALID_FREE_FINANCIAL_TERMS => t.category == FREE && (cost != 0 || t.sponsorPrizePool != 0)
    case MISSING_PARTICIPANT_LIMIT => t.registrationCloseMode == CAPACITY && max.None?
    case INVALID_PARTICIPANT_LIMIT => max.Some? && max.value <= 0
    case PARTICIPANT_COUNT_MISMATCH => c.currentParticipants != ApprovedCount(m.participants)
    case CAPACITY_EXCEEDED => max.Some? && c.currentParticipants > max.value
    case ACCESS_COST_COMPATIBILITY_MISMATCH => t.accessCost.Some? && t.accessCost.value != t.entryFee
    case REWARD_POOL_COMPATIBILITY_MISMATCH => c.pools.rewardPool.Some? && c.pools.rewardPool.value != c.pools.prizePool
    case MISSING_PRIZE_RULES => Trim(t.description) == ""
    case INVALID_PRIZE_DISTRIBUTION =>
      t.category != FREE && !exists d :: IsDistribution(d) && t.prizeDistribution == AsJson(d)
    case APPROVED_ENTRY_NOT_PAID =>
      && cost > 0
      && exists p :: p in m.participants && p.status == APPROVED && !(p.entryPaidAt.Some? && p.entryFeePaid == cost)
    case GROSS_COLLECTED_MISMATCH =>
      c.grossCollected != if cost > 0 then EntriesPaid(m.participants, cost) else 0
    case PRIZE_TOTALS_MISMATCH =>
      || c.pools.platformFee != SoundFee(t, c.grossCollected)
      || (if c.pools.rewardPool.Some? then c.pools.rewardPool.value else c.pools.prizePool)
        != SoundPrize(t, c.grossCollected)
  }

  /** What the approved participants who have paid the entry in full have paid. */
  function EntriesPaid(ps: seq<Participant>, cost: int): int {
    if ps == [] then 0
    else
      var last := ps[|ps| - 1];
      EntriesPaid(ps[..|ps| - 1], cost)
        + if last.status == APPROVED && last.entryPaidAt.Some? && last.entryFeePaid == cost then cost else 0
  }

  lemma {:induction false} OneMorePaid(approved: seq<Participant>, p: Participant, cost: int)
    ensures SumPaid(approved + [p], cost) == SumPaid(approved, cost) + if PaidInFull(p, cost) then cost else 0
  {
    assert (approved + [p])[..|approved|] == approved;
  }

  lemma {:induction false} EntriesAdd(ps: seq<Participant>, cost: int)
    ensures SumPaid(Approved(ps), cost) == EntriesPaid(ps, cost)
  {
    if ps != [] {
      var init, last := ps[..|ps| - 1], ps[|ps| - 1];
      EntriesAdd(init, cost);
      if last.status == APPROVED {
        assert Approved(ps) == Approved(init) + [last];
        OneMorePaid(Approved(init), last, cost);
      } else {
        assert Approved(ps) == Approved(init);
      }
    }
  }

  lemma {:induction false} UnpaidExactly(approved: seq<Participant>, cost: int)
    ensures CountUnpaid(approved, cost) > 0 <==> exists p :: p in approved && !PaidInFull(p, cost)
  {
    if approved != [] {
      var init, last := approved[..|approved| - 1], approved[|approved| - 1];
      assert approved == init + [last];
      UnpaidExactly(init, cost);
    }
  }

  lemma {:induction false} DistributionExactly(value: Json)
    ensures ValidateDistribution(value).Ok? <==> exists d :: IsDistribution(d) && value == AsJson(d)
  {
    var validated := ValidateDistribution(value);
    if validated.Ok? {
      ValidDistributionsExactly(value, validated.value);
    }
    forall d | IsDistribution(d) && value == AsJson(d) ensures validated == Ok(d) {
      ValidDistributionsExactly(value, d);
    }
  }

  lemma {:induction false} InOneOf(a: seq<Issue>, b: seq<Issue>, c: seq<Issue>, d: seq<Issue>, issue: Issue)
    ensures issue in a + b + c + d <==> issue in a || issue in b || issue in c || issue in d
  {}

  lemma {:induction false} TotalsExactly(t: Terms, gross: int)
    ensures ExpectedTotals(t, gross) == Pool(SoundFee(t, gross), SoundPrize(t, gross))
  {}

  lemma {:induction false} MoneyReported(m: Mesa, issue: Issue)
    requires issue == APPROVED_ENTRY_NOT_PAID || issue == GROSS_COLLECTED_MISMATCH || issue == PRIZE_TOTALS_MISMATCH
    ensures issue in MoneyIssues(m.terms, m.counters, Approved(m.participants)) <==> IsReported(m, issue)
  {
    var (cost, approved) := (AccessCost(m.terms), Approved(m.participants));
    if issue == APPROVED_ENTRY_NOT_PAID {
      UnpaidExactly(approved, cost);
    } else if issue == GROSS_COLLECTED_MISMATCH {
      EntriesAdd(m.participants, cost);
    } else {
      TotalsExactly(m.terms, m.counters.grossCollected);
    }
  }

  lemma {:induction false} CompatibilityReported(m: Mesa, issue: Issue)
    requires AboutCompatibility(issue)
    ensures issue in CompatibilityIssues(m.terms, m.counters.pools) <==> IsReported(m, issue)
  {
    DistributionExactly(m.terms.prizeDistribution);
  }

  lemma {:induction false} SeatReported(m: Mesa, issue: Issue)
    requires AboutSeats(issue)
    ensures issue in SeatIssues(m) <==> IsReported(m, issue)
  {}

  lemma {:induction false} TermsReported(m: Mesa, issue: Issue)
    requires AboutTerms(issue)
    ensures issue in TermsIssues(m.terms) <==> IsReported(m, issue)
  {}

  predicate AboutTerms(issue: Issue) {
    || issue == INVALID_PAID_ACCESS_COST || issue == INVALID_PAID_SPONSOR_POOL
    || issue == INVALID_SPONSORED_ACCESS_COST || issue == INVALID_SPONSORED_PRIZE_POOL
    || issue == INVALID_FREE_FINANCIAL_TERMS
  }

  predicate AboutSeats(issue: Issue) {
    || issue == MISSING_PARTICIPANT_LIMIT || issue == INVALID_PARTICIPANT_LIMIT
    || issue == PARTICIPANT_COUNT_MISMATCH || issue == CAPACITY_EXCEEDED
  }

  predicate AboutCompatibility(issue: Issue) {
    || issue == ACCESS_COST_COMPATIBILITY_MISMATCH || issue == REWARD_POOL_COMPATIBILITY_MISMATCH
    || issue == MISSING_PRIZE_RULES || issue == INVALID_PRIZE_DISTRIBUTION
  }

  lemma {:induction false} OnlyTerms(t: Terms, issue: Issue)
    ensures issue in TermsIssues(t) ==> AboutTerms(issue)
  {}

  lemma {:induction false} OnlySeats(m: Mesa, issue: Issue)
    ensures issue in SeatIssues(m) ==> AboutSeats(issue)
  {}

  lemma {:induction false} OnlyCompatibility(t: Terms, pools: Pools, issue: Issue)
    ensures issue in CompatibilityIssues(t, pools) ==> AboutCompatibility(issue)
  {}

  lemma {:induction false} OnlyMoney(t: Terms, c: Counters, approved: seq<Participant>, issue: Issue)
    ensures issue in MoneyIssues(t, c, approved) ==>
      issue == APPROVED_ENTRY_NOT_PAID || issue == GROSS_COLLECTED_MISMATCH || issue == PRIZE_TOTALS_MISMATCH
  {}

  /** Each part of the report holds its own issues only. */
  lemma {:induction false} InItsPart(m: Mesa, approved: seq<Participant>, issue: Issue)
    requires approved == Approved(m.participants)
    ensures AboutTerms(issue) ==> (issue in Inspect(m) <==> issue in TermsIssues(m.terms))
    ensures AboutSeats(issue) ==> (issue in Inspect(m) <==> issue in SeatIssues(m))
    ensures AboutCompatibility(issue) ==>
      (issue in Inspect(m) <==> issue in CompatibilityIssues(m.terms, m.counters.pools))
    ensures !AboutTerms(issue) && !AboutSeats(issue) && !AboutCompatibility(issue) ==>
      (issue in Inspect(m) <==> issue in MoneyIssues(m.terms, m.counters, approved))
  {
    InOneOf(TermsIssues(m.terms), SeatIssues(m), CompatibilityIssues(m.terms, m.counters.pools),
            MoneyIssues(m.terms, m.counters, approved), issue);
    OnlyTerms(m.terms, issue);
    OnlySeats(m, issue);
    OnlyCompatibility(m.terms, m.counters.pools, issue);
    OnlyMoney(m.terms, m.counters, approved, issue);
  }

  /** The report of any Mesa holds exactly the issues that it has. */
  lemma {:induction false} ReportedExactly(m: Mesa, issue: Issue)
    ensures issue in Inspect(m) <==> IsReported(m, issue)
  {
    InItsPart(m, Approved(m.participants), issue);
    if AboutTerms(issue) {
      TermsReported(m, issue);
    } else if AboutSeats(issue) {
      SeatReported(m, issue);
    } else if AboutCompatibility(issue) {
      CompatibilityReported(m, issue);
    } else {
      MoneyReported(m, issue);
    }
  }

  lemma {:induction false} ValidDistributionIsKept(value: Json)
    requires ValidateDistribution(value).Ok?
    ensures ValidateDistribution(AsJson(ValidateDistribution(value).value)).Ok?
  {
    ValidDistributionsExactly(value, ValidateDistribution(value).value);
  }

  lemma {:induction false} NewTermsAreSound(input: CreateInput, terms: CategoryTerms, description: string, stored: Json)
    requires ValidateTerms(input.terms) == Ok(terms)
    requires terms.category != FREE ==> ValidateDistribution(stored).Ok?
    ensures SoundTerms(NewTerms(input, terms, description, stored))
  {}

  lemma {:induction false} NothingCollected(t: Terms, c: Counters, sponsored: int)
    requires c.grossCollected == 0 && c.pools.platformFee == 0
    requires c.pools.prizePool == sponsored && c.pools.rewardPool == Some(sponsored)
    requires sponsored == if t.category.SPONSORED_FREE? then t.sponsorPrizePool else 0
    ensures SoundPools(t, c, 0)
  {}

  lemma {:induction false} NewPoolsAreSound(t: Terms, terms: CategoryTerms)
    requires t.category == terms.category && t.sponsorPrizePool == terms.sponsorPrizePool
    ensures SoundPools(t, NewCounters(terms), 0)
  {
    NothingCollected(t, NewCounters(terms), if t.category.SPONSORED_FREE? then t.sponsorPrizePool else 0);
  }

  lemma {:induction false} NoCreationProblem(input: CreateInput, ctx: CreateContext, terms: CategoryTerms)
    requires CreationProblem(input, ctx, terms).None? && terms.category != FREE
    ensures Trim(input.description) != "" && ValidateDistribution(input.prizeDistribution).Ok?
  {}

  lemma {:induction false} StoredDistributionIsValid(distribution: Json, category: Category)
    requires ValidateDistribution(distribution).Ok? && category != FREE
    ensures ValidateDistribution(StoredDistribution(distribution, category)).Ok?
  {
    ValidDistributionIsKept(distribution);
  }

  lemma {:induction false} CreatedMesaIsNew(input: CreateInput, ctx: CreateContext, m: Mesa)
    requires CreateMesa(input, ctx) == Ok(m)
    ensures ValidateTerms(input.terms).Ok? && CreationProblem(input, ctx, ValidateTerms(input.terms).value).None?
    ensures var terms := ValidateTerms(input.terms).value;
      && m.terms == NewTerms(input, terms, Trim(input.description),
        StoredDistribution(input.prizeDistribution, terms.category))
      && m == NewMesa(m.terms, NewCounters(terms), input.endDate)
  {}

  /** A created Mesa has sound terms ... */
  lemma {:induction false} CreatedTermsAreSound(input: CreateInput, ctx: CreateContext, m: Mesa)
    requires CreateMesa(input, ctx) == Ok(m)
    ensures SoundTerms(m.terms)
  {
    CreatedMesaIsNew(input, ctx, m);
    var terms := ValidateTerms(input.terms).value;
    if terms.category != FREE {
      NoCreationProblem(input, ctx, terms);
      StoredDistributionIsValid(input.prizeDistribution, terms.category);
    }
    NewTermsAreSound(input, terms, Trim(input.description),
      StoredDistribution(input.prizeDistribution, terms.category));
  }

  lemma {:induction false} NewMesaHasSoundSeats(t: Terms, c: Counters, endDate: Option<Time>)
    requires SoundTerms(t) && c.currentParticipants == 0
    ensures SoundSeats(NewMesa(t, c, endDate))
  {}

  /** ... and sound seats and pools. */
  lemma {:induction false} CreatedMesaIsSound(input: CreateInput, ctx: CreateContext, m: Mesa)
    requires CreateMesa(input, ctx) == Ok(m)
    ensures SoundSeats(m) && SoundPools(m.terms, m.counters, ApprovedCount(m.participants))
  {
    CreatedTermsAreSound(input, ctx, m);
    CreatedMesaIsNew(input, ctx, m);
    NewPoolsAreSound(m.terms, ValidateTerms(input.terms).value);
    NewMesaHasSoundSeats(m.terms, m.counters, input.endDate);
  }

  lemma {:induction false} CreatedDescription(input: CreateInput, ctx: CreateContext, m: Mesa)
    requires CreateMesa(input, ctx) == Ok(m)
    ensures m.terms.description == Trim(input.description)
    ensures m.terms.category != FREE ==> m.terms.description != ""
  {
    CreatedMesaIsNew(input, ctx, m);
    if m.terms.category != FREE {
      NoCreationProblem(input, ctx, ValidateTerms(input.terms).value);
    }
  }

  /** So it is reported only when it was created without a description, which only the FREE
      category lets through. */
  lemma {:induction false} CreatedMesaReport(input: CreateInput, ctx: CreateContext, m: Mesa)
    requires CreateMesa(input, ctx) == Ok(m)
    ensures Inspect(m) == [] <==> Trim(input.description) != ""
    ensures Trim(input.description) == "" ==> m.terms.category == FREE
  {
    CreatedTermsAreSound(input, ctx, m);
    CreatedMesaIsSound(input, ctx, m);
    CreatedDescription(input, ctx, m);
    TrimTwice(input.description);
    EmptyReportExactly(m);
  }
}
