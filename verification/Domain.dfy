/** The rows of the competition database that the Mesa services read and write. */
module Domain {
  import opened Collections
  import opened Tiebreak
  import opened Prize

  type MesaId = int
  type RoundNo = int
  type Time = int

  datatype Category = PAID | FREE | SPONSORED_FREE
  datatype CloseMode = CAPACITY | DATE
  datatype DurationMode = ROUNDS | UNTIL_DATE
  datatype Eligibility = ALL | SUBSCRIBERS_ONLY | FREE_ONLY
  datatype MesaStatus = DRAFT | ACTIVE | CLOSED
  datatype ParticipantStatus = PENDING | APPROVED | REJECTED
  datatype InitializationStatus =
    | WAITING_FOR_REGISTRATION_CLOSE
    | WAITING_FOR_REFERENCE_ROUND
    | WAITING_FOR_BASELINE_CAPTURE
    | READY

  /** What the final position was decided by, as the closing stores it. */
  datatype StoredTiebreak = StoredTiebreak(hits: Hits, userCreatedAt: Time)

  datatype Participant = Participant(
    userId: UserId,
    status: ParticipantStatus,
    approvedAt: Option<Time>,
    entryFeePaid: int,
    entryPaidAt: Option<Time>,
    scoreInitial: int,
    scoreInitialCapturedAt: Option<Time>,
    score: int,
    position: Option<int>,
    tiebreak: Option<StoredTiebreak>)

  /** The columns of a `rankings` row of type BOLAO that only creation and editing write. */
  datatype Terms = Terms(
    createdBy: UserId,
    createdByAdmin: bool,
    category: Category,
    eligibility: Eligibility,
    registrationCloseMode: CloseMode,
    durationMode: DurationMode,
    durationRounds: Option<int>,
    description: string,
    entryFee: int,
    accessCost: Option<int>,
    sponsorPrizePool: int,
    prizeDistribution: Json,
    maxParticipants: Option<int>,
    startDate: Option<Time>,
    entryEndDate: Option<Time>)

  /** The columns that joining writes. */
  datatype Counters = Counters(currentParticipants: int, grossCollected: int, pools: Pools)
  datatype Pools = Pools(platformFee: int, prizePool: int, rewardPool: Option<int>)

  /** The columns that the temporal milestones write. */
  datatype Milestones = Milestones(
    registrationClosedAt: Option<Time>,
    referenceRound: Option<RoundNo>,
    initializationStatus: Option<InitializationStatus>,
    scoreInitialCapturedAt: Option<Time>,
    endDate: Option<Time>)

  /** A `rankings` row of type BOLAO with its `ranking_participants` rows in creation order. */
  datatype Mesa = Mesa(
    terms: Terms,
    status: MesaStatus,
    settledAt: Option<Time>,
    counters: Counters,
    milestones: Milestones,
    participants: seq<Participant>)

  function AccessCost(t: Terms): int {
    t.accessCost.GetOr(t.entryFee)
  }

  predicate HasPaidEntry(t: Terms) {
    AccessCost(t) > 0
  }

  predicate ByCapacity(t: Terms) {
    t.registrationCloseMode == CAPACITY
  }

  // ---- participants ----

  /** Where the row of a user is, if there is one. */
  function IndexOf(ps: seq<Participant>, u: UserId): (i: Option<nat>)
    ensures i.Some? ==> i.value < |ps| && ps[i.value].userId == u
    ensures i.None? <==> forall k :: 0 <= k < |ps| ==> ps[k].userId != u
  {
    if ps == [] then None
    else if ps[|ps| - 1].userId == u then Some(|ps| - 1)
    else IndexOf(ps[..|ps| - 1], u)
  }

  function Find(ps: seq<Participant>, u: UserId): (p: Option<Participant>)
    ensures p.Some? ==> p.value in ps && p.value.userId == u
    ensures p.None? <==> forall q :: q in ps ==> q.userId != u
  {
    var i := IndexOf(ps, u);
    if i.Some? then Some(ps[i.value]) else None
  }

  /** `@@unique([rankingId, userId])`. */
  ghost predicate OneRowPerUser(ps: seq<Participant>) {
    forall i, j :: 0 <= i < j < |ps| ==> ps[i].userId != ps[j].userId
  }

  function ApprovedCount(ps: seq<Participant>): nat {
    if ps == [] then 0
    else ApprovedCount(ps[..|ps| - 1]) + if ps[|ps| - 1].status == APPROVED then 1 else 0
  }

  /** The approved rows, as `where: { status: 'APPROVED' }` selects them. */
  function Approved(ps: seq<Participant>): (approved: seq<Participant>)
    ensures |approved| == ApprovedCount(ps)
    ensures forall p :: p in approved <==> p in ps && p.status == APPROVED
  {
    if ps == [] then []
    else
      var last := ps[|ps| - 1];
      assert ps == ps[..|ps| - 1] + [last];
      Approved(ps[..|ps| - 1]) + if last.status == APPROVED then [last] else []
  }

  /** Replaces the row of a user, or adds one. */
  function Upsert(ps: seq<Participant>, p: Participant): seq<Participant> {
    var i := IndexOf(ps, p.userId);
    if i.Some? then ps[i.value := p] else ps + [p]
  }
}
