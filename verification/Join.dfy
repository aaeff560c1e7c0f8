/** Joining a Mesa: what each statement of the join transaction does to the rows it touches. */
module Join {
  import opened Collections
  import opened Tiebreak
  import opened Prize
  import opened Domain
  import opened MesaRules
  import opened MesaIntegrity

  datatype JoinError =
    | MesaNotFound | MesaNotOpen | NotEligible | OutsideWindow | NoFreeSeat
    | AlreadyParticipates | EntryAlreadyPaid | InsufficientBalance | LedgerRefused | CapacityReached | NoOpenRound
    | InviteNotFound | InviteUnavailable

  /** The checks on the Mesa as it was read. A creator who publishes skips two of them. */
  function ReadProblem(seen: Mesa, publication: bool, activePro: bool, now: Time): Option<JoinError> {
    if seen.status != ACTIVE then Some(MesaNotOpen)
    else if !publication && !Eligible(seen.terms.eligibility, activePro) then Some(NotEligible)
    else if !publication && !RegistrationOpen(seen, now) then Some(OutsideWindow)
    else if ByCapacity(seen.terms) && !HasFreeSeat(seen) then Some(NoFreeSeat)
    else None
  }

  function ParticipantProblem(existing: Option<Participant>): Option<JoinError> {
    if existing.Some? && existing.value.status == APPROVED then Some(AlreadyParticipates)
    else if existing.Some? && existing.value.entryPaidAt.Some? then Some(EntryAlreadyPaid)
    else None
  }

  /** `currentParticipants: { increment: 1 }`, and the entry when it is paid. */
  function CountSeat(t: Terms, c: Counters): Counters {
    c.(currentParticipants := c.currentParticipants + 1,
       grossCollected := c.grossCollected + if HasPaidEntry(t) then AccessCost(t) else 0)
  }

  /** The increment guarded by `currentParticipants: { lt: maxParticipants }`. */
  function ReserveSeat(t: Terms, c: Counters): Option<Counters> {
    if t.maxParticipants.Some? && c.currentParticipants < t.maxParticipants.value then Some(CountSeat(t, c)) else None
  }

  predicate LastSeatTaken(t: Terms, c: Counters, ms: Milestones) {
    t.maxParticipants == Some(c.currentParticipants) && ms.registrationClosedAt.None?
  }

  /** The seat that fills the Mesa closes the registration on the open round. */
  function CloseIfFull(t: Terms, c: Counters, ms: Milestones, open: Option<RoundNo>,
                       approvedAt: Time): Option<Milestones> {
    if !LastSeatTaken(t, c, ms) then Some(ms)
    else if open.None? then None
    else if ms.referenceRound.Some? then Some(ms)
    else Some(ms.(registrationClosedAt := Some(approvedAt), referenceRound := open,
                  initializationStatus := Some(WAITING_FOR_REFERENCE_ROUND), scoreInitialCapturedAt := None))
  }

  /** The row written for the participant, over the existing one if there is one. */
  function Enrolled(t: Terms, existing: Option<Participant>, u: UserId, scoreInitial: int,
                    approvedAt: Time): Participant {
    var base := if existing.Some? then existing.value
                else Participant(u, APPROVED, None, 0, None, scoreInitial, None, 0, None, None);
    base.(status := APPROVED, scoreInitial := scoreInitial, approvedAt := Some(approvedAt),
          entryFeePaid := if HasPaidEntry(t) then AccessCost(t) else 0,
          entryPaidAt := if HasPaidEntry(t) then Some(approvedAt) else None)
  }

  /** The pools recomputed from what has been collected. */
  function UpdateTotals(t: Terms, c: Counters): Counters {
    if !HasPaidEntry(t) then c
    else
      var totals := CalculatePool(c.grossCollected);
      var rewardPool := totals.prizePool + if t.category == SPONSORED_FREE then t.sponsorPrizePool else 0;
      c.(pools := Pools(totals.platformFee, rewardPool, Some(rewardPool)))
  }

  /** What a whole join makes of the Mesa, all its statements acting on the same row. */
  function Joined(m: Mesa, u: UserId, scoreInitial: int, approvedAt: Time, open: Option<RoundNo>): Result<Mesa,
                  JoinError> {
    var t, existing := m.terms, Find(m.participants, u);
    var problem := ParticipantProblem(existing);
    if problem.Some? then Err(problem.value)
    else
      var participants := Upsert(m.participants, Enrolled(t, existing, u, scoreInitial, approvedAt));
      if ByCapacity(t) then
        var reserved := ReserveSeat(t, m.counters);
        if reserved.None? then Err(CapacityReached)
        else
          var closed := CloseIfFull(t, reserved.value, m.milestones, open, approvedAt);
          if closed.None? then Err(NoOpenRound)
          else Ok(m.(counters := UpdateTotals(t, reserved.value), milestones := closed.value,
                     participants := participants))
      else
        Ok(m.(counters := UpdateTotals(t, CountSeat(t, m.counters)), participants := participants))
  }

  // ---- a join keeps the Mesa sound ----

  /** Only approved rows, one per user, counted by the Mesa. */
  ghost predicate Seated(m: Mesa) {
    && (forall p :: p in m.participants ==> p.status == APPROVED)
    && OneRowPerUser(m.participants)
    && m.counters.currentParticipants == |m.participants|
  }

  lemma {:induction false} AllApproved(ps: seq<Participant>)
    requires forall p :: p in ps ==> p.status == APPROVED
    ensures ApprovedCount(ps) == |ps| && Approved(ps) == ps
  {
    if ps != [] {
      var init, last := ps[..|ps| - 1], ps[|ps| - 1];
      assert ps == init + [last];
      AllApproved(init);
    }
  }

  /** A seated user cannot join again, and a new one is added at the end. */
  lemma {:induction false} JoinAddsARow(m: Mesa, u: UserId, scoreInitial: int, approvedAt: Time, open: Option<RoundNo>)
    requires Seated(m) && Joined(m, u, scoreInitial, approvedAt, open).Ok?
    ensures Find(m.participants, u).None?
    ensures var after := Joined(m, u, scoreInitial, approvedAt, open).value;
      after.participants == m.participants + [Enrolled(m.terms, None, u, scoreInitial, approvedAt)]
  {}

  /** A join is refused exactly when the user takes part already, the seats have run out, or
      the last one is taken while no round is open. */
  lemma {:induction false} JoinSucceedsExactly(m: Mesa, u: UserId, scoreInitial: int, approvedAt: Time,
                                               open: Option<RoundNo>)
    requires Seated(m) && m.milestones.registrationClosedAt.None?
    ensures Joined(m, u, scoreInitial, approvedAt, open).Ok?
      <==> (&& (forall p :: p in m.participants ==> p.userId != u)
            && (ByCapacity(m.terms) ==>
              && m.terms.maxParticipants.Some? && |m.participants| < m.terms.maxParticipants.value
              && (|m.participants| + 1 == m.terms.maxParticipants.value ==> open.Some?)))
  {}

  /** Whoever has a row already takes part, or has paid, and is refused; or the row is taken over
      where it stands, approved now. */
  lemma {:induction false} ExistingRowIsTakenOver(m: Mesa, i: nat, scoreInitial: int, approvedAt: Time,
                                                  open: Option<RoundNo>)
    requires OneRowPerUser(m.participants) && i < |m.participants|
    ensures var (p, cost) := (m.participants[i], AccessCost(m.terms));
      var joined := Joined(m, p.userId, scoreInitial, approvedAt, open);
      && (p.status == APPROVED ==> joined == Err(AlreadyParticipates))
      && (p.status != APPROVED && p.entryPaidAt.Some? ==> joined == Err(EntryAlreadyPaid))
      && (joined.Ok? ==>
        && p.status != APPROVED && p.entryPaidAt.None?
        && joined.value.participants == m.participants[i := p.(
          status := APPROVED, scoreInitial := scoreInitial, approvedAt := Some(approvedAt),
          entryFeePaid := if cost > 0 then cost else 0, entryPaidAt := if cost > 0 then Some(approvedAt) else None)])
  {}

  lemma {:induction false} CountedSeatPays(t: Terms, c: Counters, n: nat)
    requires SoundTerms(t) && SoundPools(t, c, n)
    ensures SoundPools(t, UpdateTotals(t, CountSeat(t, c)), n + 1)
  {}
}
