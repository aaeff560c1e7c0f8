/** What never changes again once it has happened, and the scores of a whole run. */
module Progress {
  import opened Collections
  import opened Tiebreak
  import opened Prize
  import opened Domain
  import opened MesaRules
  import opened Book
  import opened BookRun
  import opened Window
  import opened Wallets
  import opened Lifecycle
  import opened Settlement
  import opened MesaInvariant
  import opened MesaClosing
  import opened Competition
  import opened CompetitionInvariant

  /** The participants stay, with their initial scores once these are captured. */
  ghost predicate KeepsRows(ps: seq<Participant>, after: seq<Participant>) {
    && |ps| == |after|
    && forall i :: 0 <= i < |ps| ==>
      && ps[i].userId == after[i].userId
      && (ps[i].scoreInitialCapturedAt.Some? ==>
        after[i].scoreInitialCapturedAt == ps[i].scoreInitialCapturedAt && after[i].scoreInitial == ps[i].scoreInitial)
  }

  /** A later state of the same Mesa. */
  ghost predicate Later(m: Mesa, after: Mesa) {
    && (m.settledAt.Some? ==> after == m)
    && (m.status != MesaStatus.DRAFT ==> after.status != MesaStatus.DRAFT && after.terms == m.terms)
    && (m.milestones.registrationClosedAt.Some? ==>
      && after.milestones.registrationClosedAt == m.milestones.registrationClosedAt
      && after.milestones.referenceRound == m.milestones.referenceRound
      && KeepsRows(m.participants, after.participants))
    && (m.milestones.scoreInitialCapturedAt.Some? ==>
      after.milestones.scoreInitialCapturedAt == m.milestones.scoreInitialCapturedAt)
    && (m.status != MesaStatus.DRAFT && m.terms.durationMode == ROUNDS && m.milestones.endDate.Some? ==>
      after.milestones.endDate == m.milestones.endDate)
  }

  lemma {:induction false} LaterTwice(a: Mesa, b: Mesa, c: Mesa)
    requires Later(a, b) && Later(b, c)
    ensures Later(a, c)
  {}

  // ---- every event moves on ----

  lemma {:induction false} FinishedOnce(b: Book, m: Mesa)
    requires MesaOk(b, m)
    ensures Later(m, FinishDue(b, m))
  {
    if FinishIsPending(m) && m.terms.durationMode == ROUNDS && m.milestones.endDate.Some? {
      assert EndOk(b, m);
    }
  }

  lemma {:induction false} CapturedOnce(b: Book, m: Mesa, now: Time)
    requires MesaOk(b, m)
    ensures Later(m, Capture(b, m, now))
  {}

  lemma {:induction false} ClosedByDateOnce(b: Book, m: Mesa, open: Option<RoundNo>, now: Time)
    requires MesaOk(b, m)
    ensures Later(m, CloseDue(m, open, now))
  {}

  lemma {:induction false} JoinMovesOn(db: Db, r: Request, found: Findings, inviteAt: Time)
    requires Inv(db) && JoinEnabled(db, r, found, inviteAt)
    ensures Later(db.mesas[r.mesa], JoinDb(db, r, found, inviteAt).value.mesas[r.mesa])
  {
    OpenIsNew(db.book, db.mesas[r.mesa]);
  }

  lemma {:induction false} OpenIsNew(b: Book, m: Mesa)
    requires MesaOk(b, m) && m.milestones.registrationClosedAt.None?
    ensures m.settledAt.None? && m.milestones.scoreInitialCapturedAt.None? && Unended(m)
  {}

  lemma {:induction false} ClosedOnce(m: Mesa, rows: seq<Ranked<Row>>, after: Mesa)
    requires m.settledAt.None? && after.terms == m.terms && after.milestones == m.milestones
    requires after.status == MesaStatus.CLOSED && after.participants == Frozen(m.participants, rows)
    ensures Later(m, after)
  {}

  lemma {:induction false} CloseMovesOn(db: Db, id: MesaId, end: Option<Time>, force: bool, activePro: set<UserId>,
                                        c: Closing)
    requires Inv(db) && id in db.mesas
    requires CloseMesa(db.book, id, db.mesas[id], end, force, db.wallets, activePro, db.now) == Ok(c)
    ensures Later(db.mesas[id], c.mesa)
  {
    ClosableIsUnpaid(db, id, end, force);
    ClosedMesa(db.book, id, db.mesas[id], end, force, db.wallets, activePro, db.now, c);
    ClosedOnce(db.mesas[id], Ranking(ClosingRows(db.book, db.mesas[id], end, db.now), RowMetrics), c.mesa);
  }

  lemma {:induction false} OneMovesOn(mesas: map<MesaId, Mesa>, k: MesaId, m: Mesa, id: MesaId)
    requires id in mesas && (k in mesas ==> Later(mesas[k], m))
    ensures Later(mesas[id], mesas[k := m][id])
  {}

  lemma {:induction false} NoneMovesOn(mesas: map<MesaId, Mesa>, id: MesaId)
    requires id in mesas
    ensures Later(mesas[id], mesas[id])
  {}

  lemma {:induction false} PublishedOnce(b: Book, m: Mesa)
    requires MesaOk(b, m) && m.status == MesaStatus.DRAFT
    ensures Later(m, m.(status := ACTIVE))
  {}

  lemma {:induction false} EditedOnce(b: Book, m: Mesa, input: CreateInput, context: CreateContext, after: Mesa)
    requires MesaOk(b, m) && EditDraft(m, input, context) == Ok(after)
    ensures Later(m, after)
  {
    DraftIsNew(b, m);
  }

  lemma {:induction false} StageMovesOn(b: Book, m: Mesa, stage: Stage, now: Time)
    requires MesaOk(b, m) && StageAllowed(m, stage)
    ensures Later(m, AtStage(b, m, stage, now))
  {
    match stage {
      case DraftEdited(input, context) => EditedOnce(b, m, input, context, AtStage(b, m, stage, now));
      case Published => PublishedOnce(b, m);
      case RegistrationDue(open) => ClosedByDateOnce(b, m, open, now);
      case ScoresCaptured => CapturedOnce(b, m, now);
      case RoundsFinished => FinishedOnce(b, m);
    }
  }

  lemma {:induction false} ClosingMovesOn(db: Db, k: MesaId, end: Option<Time>, force: bool, activePro: set<UserId>,
                                          c: Closing, id: MesaId)
    requires Inv(db) && k in db.mesas && id in db.mesas
    requires CloseMesa(db.book, k, db.mesas[k], end, force, db.wallets, activePro, db.now) == Ok(c)
    ensures Later(db.mesas[id], db.mesas[k := c.mesa][id])
  {
    CloseMovesOn(db, k, end, force, activePro, c);
    OneMovesOn(db.mesas, k, c.mesa, id);
  }

  /** An event leaves a Mesa alone or moves it on. */
  lemma {:induction false} JoinsMoveOn(db: Db, r: Request, found: Findings, inviteAt: Time, after: Db, id: MesaId)
    requires Inv(db) && JoinEnabled(db, r, found, inviteAt) && JoinDb(db, r, found, inviteAt) == Ok(after)
    requires id in db.mesas
    ensures id in after.mesas && Later(db.mesas[id], after.mesas[id])
  {
    JoinMovesOn(db, r, found, inviteAt);
    OneMovesOn(db.mesas, r.mesa, after.mesas[r.mesa], id);
  }

  lemma {:induction false} StepMovesOn(db: Db, e: Event, id: MesaId)
    requires Inv(db) && Enabled(db, e) && id in db.mesas
    ensures id in Apply(db, e).mesas && Later(db.mesas[id], Apply(db, e).mesas[id])
  {
    match e {
      case StageReached(k, stage) =>
        StageMovesOn(db.book, db.mesas[k], stage, db.now);
        OneMovesOn(db.mesas, k, AtStage(db.book, db.mesas[k], stage, db.now), id);
      case JoinCommitted(r, found, inviteAt) =>
        JoinsMoveOn(db, r, found, inviteAt, JoinDb(db, r, found, inviteAt).value, id);
      case MesaClosed(k, end, force, activePro) =>
        ClosingMovesOn(db, k, end, force, activePro,
                       CloseMesa(db.book, k, db.mesas[k], end, force, db.wallets, activePro, db.now).value, id);
      case MesaCreated(k, input, ctx) => OneMovesOn(db.mesas, k, CreateMesa(input, ctx).value, id);
      case _ => NoneMovesOn(db.mesas, id);
    }
  }

  /** So over any run: the terms of a published Mesa, a reference, a closing, a participant list, an
      initial score, an end and a settlement are there for good once they are there. */
  lemma {:induction false} RunMovesOn(db: Db, events: seq<Event>, final: Db, id: MesaId)
    requires Inv(db) && Reaches(db, events, final) && id in db.mesas
    ensures id in final.mesas && Later(db.mesas[id], final.mesas[id])
    decreases |events|
  {
    if events != [] {
      StepKeepsInv(db, events[0]);
      StepMovesOn(db, events[0], id);
      RunMovesOn(Apply(db, events[0]), events[1..], final, id);
      LaterTwice(db.mesas[id], Apply(db, events[0]).mesas[id], final.mesas[id]);
    }
  }

  // ---- the book over a run ----

  lemma {:induction false} ExtendsTwice(a: Book, b: Book, c: Book)
    requires Extends(a, b) && Extends(b, c)
    ensures Extends(a, c)
  {
    forall r | HasStatus(a, r, SCORED) ensures HasStatus(b, r, SCORED) && c.rounds[r] == a.rounds[r] && r in c.rounds {}
    forall r, s | HasStatus(a, r, SCORED) && HasStatus(c, s, SCORED) && !HasStatus(a, s, SCORED) ensures r < s {
      assert HasStatus(b, r, SCORED);
      assert HasStatus(b, s, SCORED) || !HasStatus(b, s, SCORED);
    }
    forall k | |a.history| <= k < |c.history| ensures !HasStatus(a, c.history[k].round, SCORED) {
      if k < |b.history| {
        assert c.history[k] == b.history[k];
      }
    }
  }

  lemma {:induction false} StepExtendsBook(db: Db, e: Event)
    requires Inv(db) && Enabled(db, e)
    ensures Extends(db.book, Apply(db, e).book)
  {
    if e.BookChanged? {
      BookStep(db.book, e.change);
    }
  }

  lemma {:induction false} RunExtendsBook(db: Db, events: seq<Event>, final: Db)
    requires Inv(db) && Reaches(db, events, final)
    ensures Extends(db.book, final.book)
    decreases |events|
  {
    if events != [] {
      StepKeepsInv(db, events[0]);
      StepExtendsBook(db, events[0]);
      RunExtendsBook(Apply(db, events[0]), events[1..], final);
      ExtendsTwice(db.book, Apply(db, events[0]).book, final.book);
    }
  }

  /** What was earned in scored rounds is settled for good. */
  lemma {:induction false} ScoredRoundsStay(b: Book, later: Book, u: UserId, rounds: set<RoundNo>, f: Figure)
    requires Extends(b, later) && forall n :: n in rounds ==> HasStatus(b, n, SCORED)
    ensures Earned(later.history, u, rounds, f) == Earned(b.history, u, rounds, f)
  {
    EarnedStays(b.history, later.history, u, rounds, f);
  }

  lemma {:induction false} FirstRoundsAreScored(b: Book, reference: RoundNo, count: nat)
    requires count <= |ScoredAfter(b, b.numbers, reference)|
    ensures forall n :: n in FirstRounds(b, reference, count) ==> HasStatus(b, n, SCORED)
  {
    var after := ScoredAfter(b, b.numbers, reference);
    assert forall n :: n in after[..count] ==> n in after;
  }

  lemma {:induction false} FirstRoundsStay(b: Book, later: Book, reference: RoundNo, count: nat)
    requires NumbersOk(b) && NumbersOk(later) && Extends(b, later) && count <= |ScoredAfter(b, b.numbers, reference)|
    ensures count <= |ScoredAfter(later, later.numbers, reference)|
    ensures FirstRounds(later, reference, count) == FirstRounds(b, reference, count)
    ensures forall u, f ::
      Earned(later.history, u, FirstRounds(b, reference, count), f)
        == Earned(b.history, u, FirstRounds(b, reference, count), f)
  {
    SameFirstRounds(b, later, reference, count);
    FirstRoundsAreScored(b, reference, count);
    forall u, f | true
      ensures Earned(later.history, u, FirstRounds(b, reference, count), f)
        == Earned(b.history, u, FirstRounds(b, reference, count), f)
    {
      ScoredRoundsStay(b, later, u, FirstRounds(b, reference, count), f);
    }
  }

  lemma {:induction false} SameFirstRounds(b: Book, later: Book, reference: RoundNo, count: nat)
    requires NumbersOk(b) && NumbersOk(later) && Extends(b, later) && count <= |ScoredAfter(b, b.numbers, reference)|
    ensures count <= |ScoredAfter(later, later.numbers, reference)|
    ensures FirstRounds(later, reference, count) == FirstRounds(b, reference, count)
  {
    ScoredAfterGrows(b, later, reference);
    var before, after := ScoredAfter(b, b.numbers, reference), ScoredAfter(later, later.numbers, reference);
    assert after[..count] == before[..count];
  }

  // ---- the scores of a whole run ----

  /** The first `count` scored rounds after the reference. */
  ghost predicate AreFirst(b: Book, reference: RoundNo, count: int, rounds: set<RoundNo>) {
    && |rounds| == count
    && (forall n :: n in rounds ==> n in b.rounds && b.rounds[n].status == SCORED && n > reference)
    && (forall n, r :: r in rounds && n in b.rounds && b.rounds[n].status == SCORED && reference < n < r ==>
      n in rounds)
  }

  /** Participant `i` is stored with the sums of what was earned over exactly `count` rounds, the
      first scored ones after the reference round of the Mesa, and at the place that these sums
      give; `users` are the accounts whose age breaks ties. */
  ghost predicate ScoredOver(b: Book, users: map<UserId, User>, m: Mesa, i: nat, count: int) {
    && i < |m.participants| && m.milestones.referenceRound.Some?
    && exists rounds ::
      && AreFirst(b, m.milestones.referenceRound.value, count, rounds)
      && FrozenOver(b.history, users, m.participants, m.participants[i], rounds)
  }

  lemma {:induction false} FirstRoundsAreFirst(b: Book, reference: RoundNo, count: nat)
    requires NumbersOk(b) && ClosingsOk(b) && count <= |ScoredAfter(b, b.numbers, reference)|
    ensures AreFirst(b, reference, count, FirstRounds(b, reference, count))
  {
    var after := ScoredAfter(b, b.numbers, reference);
    ScoredAfterAscends(b, b.numbers, reference);
    DistinctCardinality(after[..count]);
    FirstRoundsAreScored(b, reference, count);
    assert forall n :: n in after[..count] ==> n in after;
    forall n, r | r in after[..count] && HasStatus(b, n, SCORED) && reference < n < r ensures n in after[..count] {
      assert n in after;
      TakenAreTheSmallest(after, count, n);
      TakenAreTheSmallest(after, count, r);
    }
  }

  lemma {:induction false} SamePlace(h: seq<History>, users: map<UserId, User>, ps: seq<Participant>,
                                     qs: seq<Participant>, u: UserId, rounds: set<RoundNo>)
    requires SameUsers(ps, qs)
    ensures PlaceOver(h, users, qs, u, rounds) == PlaceOver(h, users, ps, u, rounds)
  {
    assert (set j: nat | j < |ps| && AheadOver(h, users, ps[j].userId, u, rounds))
      == (set j: nat | j < |qs| && AheadOver(h, users, qs[j].userId, u, rounds));
  }

  lemma {:induction false} SamePlaceLater(h: seq<History>, later: seq<History>, users: map<UserId, User>,
                                          ps: seq<Participant>, u: UserId, rounds: set<RoundNo>)
    requires forall v, f :: Earned(later, v, rounds, f) == Earned(h, v, rounds, f)
    ensures PlaceOver(later, users, ps, u, rounds) == PlaceOver(h, users, ps, u, rounds)
  {
    assert (set j: nat | j < |ps| && AheadOver(h, users, ps[j].userId, u, rounds))
      == (set j: nat | j < |ps| && AheadOver(later, users, ps[j].userId, u, rounds));
  }

  /** On expiry the participants are frozen over the first rounds. */
  lemma {:induction false} ScoredOnExpiry(b: Book, m: Mesa, now: Time, i: nat, after: Mesa)
    requires BookOk(b) && MesaOk(b, m) && m.terms.durationMode == ROUNDS && i < |m.participants|
    requires CloseProblem(m, m.milestones.endDate, false, now).None? && after.milestones == m.milestones
    requires after.participants == FrozenMesa(b, m, m.milestones.endDate, now).participants
    ensures m.terms.durationRounds.GetOr(0) > 0 && m.milestones.referenceRound.Some?
    ensures var (reference, count) := (m.milestones.referenceRound.value, m.terms.durationRounds.GetOr(0));
      && count <= |ScoredAfter(b, b.numbers, reference)|
      && FrozenOver(b.history, b.users, m.participants, after.participants[i], FirstRounds(b, reference, count))
  {
    GuardsPassExactly(b, m, m.milestones.endDate, false, now);
    ClosedOnExpiry(b, m, now);
    FrozenScores(b, m, m.milestones.endDate, now, i, after.participants[i],
                 Counted(b, m.milestones.referenceRound.value, m.milestones.endDate.GetOr(now)));
  }

  lemma {:induction false} ScoredAtClosing(db: Db, id: MesaId, end: Option<Time>, activePro: set<UserId>, c: Closing,
                                           i: nat)
    requires Inv(db) && id in db.mesas && db.mesas[id].terms.durationMode == ROUNDS && i < |db.mesas[id].participants|
    requires end == db.mesas[id].milestones.endDate
    requires CloseMesa(db.book, id, db.mesas[id], end, false, db.wallets, activePro, db.now) == Ok(c)
    ensures c.mesa.settledAt.Some? && c.mesa.milestones == db.mesas[id].milestones
    ensures c.mesa.milestones.referenceRound.Some? && db.mesas[id].terms.durationRounds.GetOr(0) > 0
    ensures SameUsers(db.mesas[id].participants, c.mesa.participants)
    ensures var (b, m) := (db.book, db.mesas[id]);
      var (reference, count) := (c.mesa.milestones.referenceRound.value, m.terms.durationRounds.GetOr(0));
      && count <= |ScoredAfter(b, b.numbers, reference)|
      && FrozenOver(b.history, b.users, m.participants, c.mesa.participants[i], FirstRounds(b, reference, count))
  {
    ClosedMesaFacts(db, id, end, false, activePro, c);
    ClosableIsUnpaid(db, id, end, false);
    ClosedMesa(db.book, id, db.mesas[id], end, false, db.wallets, activePro, db.now, c);
    ScoredOnExpiry(db.book, db.mesas[id], db.now, i, c.mesa);
    FrozenAreTheSame(db.mesas[id].participants,
                     Ranking(ClosingRows(db.book, db.mesas[id], end, db.now), RowMetrics));
  }

  /** What is frozen over the first rounds stays so, whatever is scored later. */
  lemma {:induction false} FrozenStays(b: Book, later: Book, m: Mesa, ps: seq<Participant>, i: nat, count: nat)
    requires BookOk(b) && BookOk(later) && Extends(b, later) && m.milestones.referenceRound.Some?
    requires count <= |ScoredAfter(b, b.numbers, m.milestones.referenceRound.value)|
    requires SameUsers(ps, m.participants) && i < |m.participants|
    requires FrozenOver(b.history, b.users, ps, m.participants[i],
      FirstRounds(b, m.milestones.referenceRound.value, count))
    ensures ScoredOver(later, b.users, m, i, count)
  {
    var reference := m.milestones.referenceRound.value;
    var rounds := FirstRounds(b, reference, count);
    FirstRoundsStay(b, later, reference, count);
    FirstRoundsAreFirst(later, reference, count);
    SamePlace(b.history, b.users, ps, m.participants, m.participants[i].userId, rounds);
    SamePlaceLater(b.history, later.history, b.users, m.participants, m.participants[i].userId, rounds);
    assert AreFirst(later, reference, count, rounds);
  }

  /** A Mesa of rounds that closes on expiry gives every participant the sums of what was earned
      over exactly its number of rounds after the reference, and the place that they give, and
      that stays so for ever. */
  lemma {:induction false} RunScores(db: Db, e: Event, events: seq<Event>, final: Db, i: nat)
    requires Inv(db) && Enabled(db, e) && e.MesaClosed? && !e.force
    requires db.mesas[e.mesa].terms.durationMode == ROUNDS && i < |db.mesas[e.mesa].participants|
    requires Reaches(Apply(db, e), events, final)
    ensures e.mesa in final.mesas
    ensures var count := db.mesas[e.mesa].terms.durationRounds.GetOr(0);
      count > 0 && ScoredOver(final.book, db.book.users, final.mesas[e.mesa], i, count)
  {
    var c := CloseMesa(db.book, e.mesa, db.mesas[e.mesa], e.end, false, db.wallets, e.activePro, db.now).value;
    assert e.end == db.mesas[e.mesa].milestones.endDate;
    ScoredAtClosing(db, e.mesa, e.end, e.activePro, c, i);
    StepKeepsInv(db, e);
    RunMovesOn(Apply(db, e), events, final, e.mesa);
    RunExtendsBook(Apply(db, e), events, final);
    RunKeepsInv(Apply(db, e), events, final);
    FrozenStays(db.book, final.book, c.mesa, db.mesas[e.mesa].participants, i,
                db.mesas[e.mesa].terms.durationRounds.GetOr(0));
  }
}
