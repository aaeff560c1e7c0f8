/** What the concurrent system guarantees, in the terms of its tables. */
module Guarantees {
  import opened Collections
  import opened Tiebreak
  import opened Prize
  import opened Domain
  import opened MesaRules
  import opened MesaIntegrity
  import opened Book
  import opened BookRun
  import opened Window
  import opened Wallets
  import opened Join
  import opened Lifecycle
  import opened Settlement
  import opened SettlementLaws
  import opened MesaInvariant
  import opened MesaClosing
  import opened Competition
  import opened CompetitionInvariant
  import opened Conservation
  import opened Progress
  import opened Interleaving
  import opened InterleavingLaws
  import opened Concurrency

  lemma {:induction false} ReachedIsOk(actions: seq<Action>, final: World)
    requires RunsTo(START, actions, final)
    ensures WorldOk(START) && WorldOk(final)
  {
    StartIsOk();
    RunIsSerial(START, actions, final);
  }

  // ---- Mesas ----

  lemma {:induction false} ClosedWhenFull(b: Book, m: Mesa)
    requires MesaOk(b, m) && ByCapacity(m.terms)
    ensures m.milestones.registrationClosedAt.Some? <==> m.terms.maxParticipants == Some(|m.participants|)
  {}

  lemma {:induction false} RevenueOfEntries(b: Book, m: Mesa)
    requires MesaOk(b, m) && HasPaidEntry(m.terms)
    ensures m.counters.grossCollected == AccessCost(m.terms) * |m.participants|
  {
    EntryRevenueIsProduct(m.terms, |m.participants|);
  }

  lemma {:induction false} SeatsAndMoney(b: Book, m: Mesa)
    requires MesaOk(b, m)
    ensures m.counters.currentParticipants == ApprovedCount(m.participants)
    ensures m.terms.maxParticipants.Some? ==> m.counters.currentParticipants <= m.terms.maxParticipants.value
    ensures HasPaidEntry(m.terms) ==> m.counters.grossCollected == AccessCost(m.terms) * ApprovedCount(m.participants)
    ensures ByCapacity(m.terms) ==>
      (m.milestones.registrationClosedAt.Some? <==> m.terms.maxParticipants == Some(m.counters.currentParticipants))
  {
    AllApproved(m.participants);
    SeatsFit(b, m);
    assert m.counters.currentParticipants == |m.participants| == ApprovedCount(m.participants);
    if HasPaidEntry(m.terms) {
      RevenueOfEntries(b, m);
    }
    if ByCapacity(m.terms) {
      ClosedWhenFull(b, m);
    }
  }

  /** In every interleaving with any aborts: a Mesa counts its approved participants, never
      more than its seats; a paid one has collected exactly its entries; a capacity Mesa is
      closed exactly when it is full; and the integrity check blocks no described Mesa. */
  lemma {:induction false} MesaGuarantee(actions: seq<Action>, final: World, id: MesaId)
    requires RunsTo(START, actions, final) && id in final.db.mesas
    ensures var m := final.db.mesas[id];
      && m.counters.currentParticipants == ApprovedCount(m.participants)
      && (m.terms.maxParticipants.Some? ==> m.counters.currentParticipants <= m.terms.maxParticipants.value)
      && (HasPaidEntry(m.terms) ==> m.counters.grossCollected == AccessCost(m.terms) * ApprovedCount(m.participants))
      && (ByCapacity(m.terms) ==>
        (m.milestones.registrationClosedAt.Some? <==> m.terms.maxParticipants == Some(m.counters.currentParticipants)))
      && (Inspect(m) == [] <==> Trim(m.terms.description) != "")
  {
    ReachedIsOk(actions, final);
    SeatsAndMoney(final.db.book, final.db.mesas[id]);
    ReportIsEmpty(final.db.book, final.db.mesas[id]);
  }

  /** A join commits only while the registration is open. On a capacity Mesa the commit that
      takes the last seat, and no other, closes it, with a round that is open at that moment as
      reference -- and from then on `LaterGuarantee` keeps both. */
  lemma {:induction false} LastSeatGuarantee(w: World, tx: TxId)
    requires WorldOk(w) && Possible(w, JoinEnded(tx))
    ensures var id := w.joins[tx].request.mesa;
      && id in w.db.mesas && id in After(w, JoinEnded(tx)).db.mesas
      && var (before, after) := (w.db.mesas[id], After(w, JoinEnded(tx)).db.mesas[id]);
        && before.milestones.registrationClosedAt.None? && |after.participants| == |before.participants| + 1
        && (ByCapacity(before.terms) ==>
          && (after.milestones.registrationClosedAt.Some? <==> Full(after))
          && (Full(after) ==>
            && after.milestones.referenceRound.Some?
            && HasStatus(w.db.book, after.milestones.referenceRound.value, OPEN)))
  {
    var j := w.joins[tx];
    CommitIsAJoin(w.db, j);
    CommitsMesa(w.db, j);
    var m := Opened(w.db.mesas[j.request.mesa], j.request.publication);
    var after := After(w, JoinEnded(tx)).db.mesas[j.request.mesa];
    if j.request.publication {
      PublishedMesaIsOk(w.db.book, w.db.mesas[j.request.mesa]);
    }
    JoinKeepsSeats(m, j.request.userId, j.scoreInitial, j.approvedAt, j.open, after);
    if ByCapacity(m.terms) {
      LastSeatCloses(w.db.book, m, j.request.userId, j.scoreInitial, j.approvedAt, j.open, after);
    }
  }

  /** Once a Mesa is ready, its reference round is scored and every participant starts from
      what it had earned up to that round. */
  lemma {:induction false} BarrierGuarantee(actions: seq<Action>, final: World, id: MesaId, p: Participant)
    requires RunsTo(START, actions, final) && id in final.db.mesas && p in final.db.mesas[id].participants
    requires final.db.mesas[id].milestones.initializationStatus == Some(READY)
    ensures var reference := final.db.mesas[id].milestones.referenceRound;
      && reference.Some? && HasStatus(final.db.book, reference.value, SCORED)
      && p.status == APPROVED && p.scoreInitialCapturedAt.Some?
      && p.scoreInitial == Earned(final.db.book.history, p.userId, ScoredUpTo(final.db.book, reference.value), Score)
  {
    ReachedIsOk(actions, final);
    BarrierUntilStart(final.db.book, final.db.mesas[id]);
    assert Seated(final.db.mesas[id]);
  }

  // ---- wallets ----

  /** No wallet is ever overdrawn, its balance is what its ledger says, and a user has been
      debited for a paid Mesa exactly when taking part in it, once; a payout is made at most
      once, and for settled Mesas only. */
  lemma {:induction false} WalletGuarantee(actions: seq<Action>, final: World, u: UserId, id: MesaId)
    requires RunsTo(START, actions, final)
    ensures var w := WalletOf(final.db.wallets, u);
      && w.balance == LedgerSum(w.ledger) >= 0
      && KeyCount(w.ledger, EntryKey(id)) == (if PaysFor(final.db.mesas, id, u) then 1 else 0)
      && KeyCount(w.ledger, PayoutKey(id)) <= (if Settled(final.db.mesas, id) then 1 else 0)
  {
    ReachedIsOk(actions, final);
    assert UniqueKeys(WalletOf(final.db.wallets, u).ledger);
    if !Settled(final.db.mesas, id) {
      assert Unpaid(final.db.wallets, id, u);
    }
  }

  /** The user whom an event brings in through an invite. */
  function UserThrough(e: Event, i: InviteId): seq<UserId> {
    if e.JoinCommitted? && e.request.invite == Some(i) then [e.request.userId] else []
  }

  /** The users of the joins committed through an invite, in the order of their commits. */
  function UsersThrough(events: seq<Event>, i: InviteId): seq<UserId> {
    if events == [] then [] else UserThrough(events[0], i) + UsersThrough(events[1..], i)
  }

  function UsersOf(db: Db, i: InviteId): seq<UserId> {
    if i in db.invites then db.invites[i].usedBy else []
  }

  lemma {:induction false} StepUses(db: Db, e: Event, i: InviteId)
    requires Enabled(db, e)
    ensures UsersOf(Apply(db, e), i) == UsersOf(db, i) + UserThrough(e, i)
  {}

  lemma {:induction false} UsedInTwoParts(before: seq<UserId>, one: seq<UserId>, next: seq<UserId>, rest: seq<UserId>,
                                          final: seq<UserId>)
    requires next == before + one && final == next + rest
    ensures final == before + (one + rest)
  {}

  lemma {:induction false} RunUses(db: Db, events: seq<Event>, final: Db, i: InviteId)
    requires Reaches(db, events, final)
    ensures UsersOf(final, i) == UsersOf(db, i) + UsersThrough(events, i)
    decreases |events|
  {
    if events != [] {
      var next := Apply(db, events[0]);
      StepUses(db, events[0], i);
      RunUses(next, events[1..], final, i);
      UsedInTwoParts(UsersOf(db, i), UserThrough(events[0], i), UsersOf(next, i), UsersThrough(events[1..], i),
                     UsersOf(final, i));
    }
  }

  /** An invite counts exactly the joins committed through it, each of another user, within its
      limit; failed joins and users who take part already use none. */
  lemma {:induction false} InviteGuarantee(actions: seq<Action>, final: World, i: InviteId)
    requires RunsTo(START, actions, final) && i in final.db.invites
    ensures var (invite, users) := (final.db.invites[i], UsersThrough(CommitsOf(START, actions, final), i));
      && invite.usedCount == |users| && invite.usedBy == users && Distinct(users)
      && (invite.maxUses.Some? ==> |users| <= invite.maxUses.value)
      && invite.mesa in final.db.mesas
      && forall u :: u in users ==> Takes(final.db.mesas[invite.mesa].participants, u)
  {
    ReachedIsOk(actions, final);
    RunIsSerial(START, actions, final);
    RunUses(EMPTY, CommitsOf(START, actions, final), final.db, i);
    assert InviteOk(final.db.invites[i], final.db.mesas);
  }

  /** The money there is is the money that the commits of the run have brought in. */
  lemma {:induction false} MoneyGuarantee(actions: seq<Action>, final: World)
    requires RunsTo(START, actions, final)
    ensures Reaches(EMPTY, CommitsOf(START, actions, final), final.db)
    ensures Held(final.db) == InflowOver(EMPTY, CommitsOf(START, actions, final), final.db)
  {
    StartIsOk();
    RunIsSerial(START, actions, final);
    NothingHeld();
    RunConserves(EMPTY, CommitsOf(START, actions, final), final.db);
  }

  lemma {:induction false} NothingHeld()
    ensures Held(EMPTY) == 0 && Inv(EMPTY)
  {
    EmptyIsOk();
    assert Balances(EMPTY.wallets) == map[] && Funds(EMPTY.mesas, EMPTY.settlements) == map[];
  }

  // ---- what happens later ----

  /** From any state of the system on: what has been fixed stays fixed. */
  lemma {:induction false} LaterGuarantee(w: World, actions: seq<Action>, final: World, id: MesaId)
    requires WorldOk(w) && RunsTo(w, actions, final) && id in w.db.mesas
    ensures id in final.db.mesas && Later(w.db.mesas[id], final.db.mesas[id])
  {
    RunIsSerial(w, actions, final);
    RunMovesOn(w.db, CommitsOf(w, actions, final), final.db, id);
  }

  lemma {:induction false} CloseSeenSettles(db: Db, c: Closer, subscribers: set<UserId>, closing: Closing)
    requires CloserOk(db, c) && CloseSeen(db, c, subscribers) == Ok(closing)
    ensures closing.mesa.settledAt.Some?
  {}

  lemma {:induction false} ClosingSettles(w: World, tx: TxId, subscribers: set<UserId>)
    requires WorldOk(w) && Possible(w, ClosingEnded(tx, subscribers))
    ensures Settled(After(w, ClosingEnded(tx, subscribers)).db.mesas, w.closers[tx].mesa)
  {
    CloseSeenSettles(w.db, w.closers[tx], subscribers, CloseSeen(w.db, w.closers[tx], subscribers).value);
  }

  lemma {:induction false} SettledStays(w: World, actions: seq<Action>, final: World, id: MesaId)
    requires WorldOk(w) && RunsTo(w, actions, final) && Settled(w.db.mesas, id)
    ensures Settled(final.db.mesas, id) && final.db.mesas[id] == w.db.mesas[id]
  {
    LaterGuarantee(w, actions, final, id);
  }

  /** Of several closings in flight only one can go through. */
  lemma {:induction false} SettledOnce(w: World, tx: TxId, subscribers: set<UserId>, actions: seq<Action>, final: World,
                                       other: Closer, others: set<UserId>)
    requires WorldOk(w) && Possible(w, ClosingEnded(tx, subscribers))
    requires RunsTo(After(w, ClosingEnded(tx, subscribers)), actions, final)
    requires other.mesa == w.closers[tx].mesa
    ensures CloseSeen(final.db, other, others).Err?
  {
    ClosingSettles(w, tx, subscribers);
    ActionKeepsWorld(w, ClosingEnded(tx, subscribers));
    SettledStays(After(w, ClosingEnded(tx, subscribers)), actions, final, other.mesa);
  }

  /** A Mesa of rounds whose closing goes through on expiry gives every participant exactly what
      was earned over its number of scored rounds after the reference round, for ever. */
  lemma {:induction false} ScoreGuarantee(w: World, tx: TxId, subscribers: set<UserId>, actions: seq<Action>,
                                          final: World, i: nat)
    requires WorldOk(w) && Possible(w, ClosingEnded(tx, subscribers)) && !w.closers[tx].force
    requires var m := w.db.mesas[w.closers[tx].mesa]; m.terms.durationMode == ROUNDS && i < |m.participants|
    requires RunsTo(After(w, ClosingEnded(tx, subscribers)), actions, final)
    ensures var (id, count) := (w.closers[tx].mesa, w.db.mesas[w.closers[tx].mesa].terms.durationRounds.GetOr(0));
      id in final.db.mesas && count > 0 && ScoredOver(final.db.book, w.db.book.users, final.db.mesas[id], i, count)
  {
    ActionKeepsWorld(w, ClosingEnded(tx, subscribers));
    ClosingRefines(w, tx, subscribers);
    var after := After(w, ClosingEnded(tx, subscribers));
    RunIsSerial(after, actions, final);
    RunScores(w.db, Commits(w, ClosingEnded(tx, subscribers)).value, CommitsOf(after, actions, final), final.db, i);
  }

  // ---- when a Mesa cannot be closed ----

  /** Closing by date while no round is open leaves the Mesa without a reference round ... */
  lemma {:induction false} ClosedWithoutReference(b: Book, m: Mesa, open: Option<RoundNo>, now: Time)
    requires MesaOk(b, m) && CloseIsDue(m, now)
    ensures CloseDue(m, open, now).milestones.referenceRound.None? <==> open.None?
  {}

  /** ... and then it can never be closed, not even by force: its pools stay collected. */
  lemma {:induction false} WithoutReferenceNeverCloses(db: Db, events: seq<Event>, final: Db, id: MesaId,
                                                       end: Option<Time>,
                                                       force: bool, now: Time)
    requires Inv(db) && Reaches(db, events, final) && id in db.mesas
    requires db.mesas[id].milestones.registrationClosedAt.Some? && db.mesas[id].milestones.referenceRound.None?
    ensures id in final.mesas && CloseProblem(final.mesas[id], end, force, now) == Some(AwaitingCapture)
  {
    RunKeepsInv(db, events, final);
    RunMovesOn(db, events, final, id);
    BarrierUntilStart(final.book, final.mesas[id]);
    StatusOfStage(final.book, final.mesas[id]);
  }
}
