/** All transactions together: every run of the concurrent system commits a run of whole,
    uninterrupted operations. */
module Concurrency {
  import opened Collections
  import opened Tiebreak
  import opened Prize
  import opened Domain
  import opened MesaRules
  import opened MesaIntegrity
  import opened Book
  import opened BookRun
  import opened Window
  import opened Wallets
  import opened Join
  import opened Lifecycle
  import opened Settlement
  import opened MesaInvariant
  import opened MesaClosing
  import opened Competition
  import opened CompetitionInvariant
  import opened Progress
  import opened Interleaving
  import opened InterleavingLaws

  // ---- closing on a stale read ----

  /** The guards look at the Mesa as it was read; the rows are built from the participants as
      they are; the settlement is recorded only if there is none by now. */
  function CloseSeen(db: Db, c: Closer, activePro: set<UserId>): Result<Closing, CloseError> {
    if c.mesa !in db.mesas then Err(CloseError.AlreadyClosed)
    else
      var (m, seen) := (db.mesas[c.mesa], c.seen);
      var problem := CloseProblem(seen, seen.milestones.endDate, c.force, db.now);
      if problem.Some? then Err(problem.value)
      else if m.settledAt.Some? then Err(CloseError.AlreadyClosed)
      else
        var rows := BuildRows(db.book, seen.terms, seen.milestones, seen.milestones.endDate, Approved(m.participants),
          db.now);
        var settled := Settle(c.mesa, seen.(participants := Frozen(m.participants, rows)), rows, db.wallets, activePro,
          db.now);
        if settled.Err? then settled
        else
          var written := settled.value.mesa;
          Ok(settled.value.(mesa := m.(participants := written.participants, settledAt := written.settledAt,
                                       counters := m.counters.(pools := written.counters.pools),
                                         status := MesaStatus.CLOSED)))
  }

  /** Since it was read the Mesa has at most been given its end, or been settled. */
  ghost predicate OnlyEnds(m: Mesa, after: Mesa) {
    after.settledAt.None? ==>
      && after == m.(milestones := m.milestones.(endDate := after.milestones.endDate))
      && (m.milestones.endDate.Some? ==> after.milestones.endDate == m.milestones.endDate)
  }

  ghost predicate CloserOk(db: Db, c: Closer) {
    && c.mesa in db.mesas && MesaOk(db.book, c.seen)
    && (c.seen.milestones.initializationStatus == Some(READY) && c.seen.settledAt.None? ==>
      OnlyEnds(c.seen, db.mesas[c.mesa]))
  }

  lemma {:induction false} RowsIgnoreTheEnd(b: Book, t: Terms, ms: Milestones, other: Milestones, end: Option<Time>,
                                            approved: seq<Participant>, now: Time)
    requires other == ms.(endDate := other.endDate)
    ensures BuildRows(b, t, ms, end, approved, now) == BuildRows(b, t, other, end, approved, now)
  {
    assert WindowRows(b, t, ms, end, approved, now) == WindowRows(b, t, other, end, approved, now);
  }

  lemma {:induction false} GuardsIgnoreTheEnd(m: Mesa, other: Mesa, end: Option<Time>, force: bool, now: Time)
    requires other == m.(milestones := m.milestones.(endDate := other.milestones.endDate))
    ensures CloseProblem(m, end, force, now) == CloseProblem(other, end, force, now)
  {}

  lemma {:induction false} SettleIgnoresTheEnd(id: MesaId, m: Mesa, other: Mesa, rows: seq<Ranked<Row>>,
                                               wallets: map<UserId, Wallet>, activePro: set<UserId>, now: Time)
    requires other == m.(milestones := m.milestones.(endDate := other.milestones.endDate))
    ensures var (x, y) :=
      (Settle(id, m, rows, wallets, activePro, now), Settle(id, other, rows, wallets, activePro, now));
      && (x.Err? ==> y == x)
      && (x.Ok? ==>
        && y.Ok? && y.value == x.value.(mesa := y.value.mesa)
        && y.value.mesa
          == other.(settledAt := x.value.mesa.settledAt,
            counters := other.counters.(pools := x.value.mesa.counters.pools)))
  {}

  lemma {:induction false} ClosableWasRead(db: Db, c: Closer)
    requires Inv(db) && CloserOk(db, c) && CloseProblem(c.seen, c.seen.milestones.endDate, c.force, db.now).None?
    ensures c.seen.settledAt.None? && OnlyEnds(c.seen, db.mesas[c.mesa])
  {
    GuardsPassExactly(db.book, c.seen, c.seen.milestones.endDate, c.force, db.now);
    StatusOfStage(db.book, c.seen);
  }

  lemma {:induction false} SeenInParts(db: Db, c: Closer, activePro: set<UserId>, rows: seq<Ranked<Row>>,
                                       frozen: Mesa, settled: Result<Closing, CloseError>)
    requires c.mesa in db.mesas && db.mesas[c.mesa].settledAt.None?
    requires CloseProblem(c.seen, c.seen.milestones.endDate, c.force, db.now).None?
    requires rows == BuildRows(db.book, c.seen.terms, c.seen.milestones, c.seen.milestones.endDate,
                               Approved(db.mesas[c.mesa].participants), db.now)
    requires frozen == c.seen.(participants := Frozen(db.mesas[c.mesa].participants, rows))
    requires settled == Settle(c.mesa, frozen, rows, db.wallets, activePro, db.now)
    ensures settled.Err? ==> CloseSeen(db, c, activePro) == settled
    ensures settled.Ok? ==>
      CloseSeen(db, c, activePro) == Ok(settled.value.(mesa := db.mesas[c.mesa].(
        participants := frozen.participants, settledAt := settled.value.mesa.settledAt, status := MesaStatus.CLOSED,
        counters := db.mesas[c.mesa].counters.(pools := settled.value.mesa.counters.pools))))
  {}

  lemma {:induction false} CloseInParts(db: Db, id: MesaId, m: Mesa, end: Option<Time>, force: bool,
                                        activePro: set<UserId>, rows: seq<Ranked<Row>>,
                                        settled: Result<Closing, CloseError>)
    requires m.settledAt.None? && CloseProblem(m, end, force, db.now).None?
    requires rows == BuildRows(db.book, m.terms, m.milestones, end, Approved(m.participants), db.now)
    requires settled
      == Settle(id, m.(participants := Frozen(m.participants, rows)), rows, db.wallets, activePro, db.now)
    ensures CloseMesa(db.book, id, m, end, force, db.wallets, activePro, db.now)
      == if settled.Err? then settled
         else Ok(settled.value.(mesa := settled.value.mesa.(status := MesaStatus.CLOSED)))
  {}

  /** Once the guards have passed on what was read, a Mesa that is not settled by now closes, or is
      refused, as it would be as it is. */
  lemma {:induction false} ClosesAsItIs(db: Db, c: Closer, activePro: set<UserId>)
    requires Inv(db) && CloserOk(db, c) && db.mesas[c.mesa].settledAt.None?
    requires CloseProblem(c.seen, c.seen.milestones.endDate, c.force, db.now).None?
    ensures CloseSeen(db, c, activePro)
      == CloseMesa(db.book, c.mesa, db.mesas[c.mesa], c.seen.milestones.endDate, c.force, db.wallets, activePro, db.now)
    ensures c.seen.milestones.endDate == db.mesas[c.mesa].milestones.endDate || c.seen.milestones.endDate.None?
  {
    var (m, seen, end) := (db.mesas[c.mesa], c.seen, c.seen.milestones.endDate);
    ClosableWasRead(db, c);
    GuardsIgnoreTheEnd(seen, m, end, c.force, db.now);
    RowsIgnoreTheEnd(db.book, m.terms, seen.milestones, m.milestones, end, Approved(m.participants), db.now);
    var rows := BuildRows(db.book, m.terms, m.milestones, end, Approved(m.participants), db.now);
    var x, y := seen.(participants := Frozen(m.participants, rows)), m.(participants := Frozen(m.participants, rows));
    SettleIgnoresTheEnd(c.mesa, x, y, rows, db.wallets, activePro, db.now);
    SeenInParts(db, c, activePro, rows, x, Settle(c.mesa, x, rows, db.wallets, activePro, db.now));
    CloseInParts(db, c.mesa, m, end, c.force, activePro, rows,
                 Settle(c.mesa, y, rows, db.wallets, activePro, db.now));
  }

  /** A closing that goes through on a stale read does what it would do on the Mesa as it is. */
  lemma {:induction false} CloseSeenIsAClose(db: Db, c: Closer, activePro: set<UserId>)
    requires Inv(db) && CloserOk(db, c) && CloseSeen(db, c, activePro).Ok?
    ensures CloseSeen(db, c, activePro)
      == CloseMesa(db.book, c.mesa, db.mesas[c.mesa], c.seen.milestones.endDate, c.force, db.wallets, activePro, db.now)
    ensures c.seen.milestones.endDate == db.mesas[c.mesa].milestones.endDate || c.seen.milestones.endDate.None?
  {
    ClosesAsItIs(db, c, activePro);
  }

  /** What a closing answers on the Mesa as it was read: the guards look at what was read, a Mesa
      settled by now is left alone, and any other closes, or is refused, as it is. */
  lemma {:induction false} CloseSeenExactly(db: Db, c: Closer, activePro: set<UserId>)
    requires Inv(db) && CloserOk(db, c)
    ensures var (m, end) := (db.mesas[c.mesa], c.seen.milestones.endDate);
      var problem := CloseProblem(c.seen, end, c.force, db.now);
      && (problem.Some? ==> CloseSeen(db, c, activePro) == Err(problem.value))
      && (problem.None? && m.settledAt.Some? ==> CloseSeen(db, c, activePro) == Err(CloseError.AlreadyClosed))
      && (problem.None? && m.settledAt.None? ==>
        CloseSeen(db, c, activePro)
          == CloseMesa(db.book, c.mesa, m, end, c.force, db.wallets, activePro, db.now))
  {
    if CloseProblem(c.seen, c.seen.milestones.endDate, c.force, db.now).None? && db.mesas[c.mesa].settledAt.None? {
      ClosesAsItIs(db, c, activePro);
    }
  }

  /** With a fresh read that is the whole closing. */
  lemma {:induction false} FreshCloseIsAClose(db: Db, c: Closer, activePro: set<UserId>)
    requires Inv(db) && CloserOk(db, c) && c.seen == db.mesas[c.mesa]
    ensures CloseSeen(db, c, activePro)
      == CloseMesa(db.book, c.mesa, c.seen, c.seen.milestones.endDate, c.force, db.wallets, activePro, db.now)
  {
    CloseSeenExactly(db, c, activePro);
    if CloseProblem(c.seen, c.seen.milestones.endDate, c.force, db.now).None? {
      ClosableWasRead(db, c);
    }
  }

  // ---- a Mesa that has started ----

  lemma {:induction false} StartedIsLeftAlone(b: Book, m: Mesa, open: Option<RoundNo>, now: Time)
    requires MesaOk(b, m) && m.milestones.initializationStatus == Some(READY)
    ensures CloseDue(m, open, now) == m && Capture(b, m, now) == m
    ensures m.status != MesaStatus.DRAFT && m.milestones.registrationClosedAt.Some?
  {}

  lemma {:induction false} StageOnlyEnds(b: Book, m: Mesa, stage: Stage, now: Time)
    requires MesaOk(b, m) && m.milestones.initializationStatus == Some(READY) && StageAllowed(m, stage)
    ensures OnlyEnds(m, AtStage(b, m, stage, now))
  {
    StartedIsLeftAlone(b, m, None, now);
    match stage {
      case DraftEdited(input, context) => EditNeedsDraft(m, input, context);
      case RegistrationDue(open) => StartedIsLeftAlone(b, m, open, now);
      case _ =>
    }
  }

  lemma {:induction false} OneOnlyEnds(mesas: map<MesaId, Mesa>, k: MesaId, m: Mesa, id: MesaId)
    requires id in mesas && (k == id ==> OnlyEnds(mesas[k], m))
    ensures OnlyEnds(mesas[id], mesas[k := m][id])
  {}

  lemma {:induction false} ClosedIsSettled(db: Db, id: MesaId, end: Option<Time>, force: bool, activePro: set<UserId>,
                                           c: Closing)
    requires Inv(db) && id in db.mesas
    requires CloseMesa(db.book, id, db.mesas[id], end, force, db.wallets, activePro, db.now) == Ok(c)
    ensures c.mesa.settledAt.Some?
  {
    ClosedMesaFacts(db, id, end, force, activePro, c);
  }

  lemma {:induction false} NoneOnlyEnds(mesas: map<MesaId, Mesa>, id: MesaId)
    requires id in mesas
    ensures OnlyEnds(mesas[id], mesas[id])
  {}

  lemma {:induction false} StagesOnlyEnd(db: Db, k: MesaId, stage: Stage, id: MesaId)
    requires Inv(db) && id in db.mesas && db.mesas[id].milestones.initializationStatus == Some(READY)
    requires k in db.mesas && StageAllowed(db.mesas[k], stage)
    ensures OnlyEnds(db.mesas[id], db.mesas[k := AtStage(db.book, db.mesas[k], stage, db.now)][id])
  {
    NoneOnlyEnds(db.mesas, id);
    if k == id {
      StageOnlyEnds(db.book, db.mesas[id], stage, db.now);
    }
    OneOnlyEnds(db.mesas, k, AtStage(db.book, db.mesas[k], stage, db.now), id);
  }

  lemma {:induction false} ClosingsOnlyEnd(db: Db, k: MesaId, end: Option<Time>, force: bool, activePro: set<UserId>,
                                           c: Closing, id: MesaId)
    requires Inv(db) && id in db.mesas && k in db.mesas
    requires CloseMesa(db.book, k, db.mesas[k], end, force, db.wallets, activePro, db.now) == Ok(c)
    ensures OnlyEnds(db.mesas[id], db.mesas[k := c.mesa][id])
  {
    ClosedIsSettled(db, k, end, force, activePro, c);
    OneOnlyEnds(db.mesas, k, c.mesa, id);
  }

  lemma {:induction false} JoinsLeaveStarted(db: Db, r: Request, found: Findings, inviteAt: Time, after: Db, id: MesaId)
    requires Inv(db) && id in db.mesas && db.mesas[id].milestones.initializationStatus == Some(READY)
    requires JoinEnabled(db, r, found, inviteAt) && JoinDb(db, r, found, inviteAt) == Ok(after)
    ensures id in after.mesas && OnlyEnds(db.mesas[id], after.mesas[id])
  {
    StartedIsLeftAlone(db.book, db.mesas[id], None, db.now);
    assert r.mesa != id;
    OneOnlyEnds(db.mesas, r.mesa, after.mesas[r.mesa], id);
  }

  /** Once the initial scores are captured, only the end and the settlement are still to come. */
  lemma {:induction false} StartedOnlyEnds(db: Db, e: Event, id: MesaId)
    requires Inv(db) && Enabled(db, e) && id in db.mesas && db.mesas[id].milestones.initializationStatus == Some(READY)
    ensures id in Apply(db, e).mesas && OnlyEnds(db.mesas[id], Apply(db, e).mesas[id])
  {
    match e {
      case StageReached(k, stage) => StagesOnlyEnd(db, k, stage, id);
      case MesaClosed(k, end, force, activePro) =>
        ClosingsOnlyEnd(db, k, end, force, activePro,
                        CloseMesa(db.book, k, db.mesas[k], end, force, db.wallets, activePro, db.now).value, id);
      case JoinCommitted(r, found, inviteAt) =>
        JoinsLeaveStarted(db, r, found, inviteAt, JoinDb(db, r, found, inviteAt).value, id);
      case MesaCreated(k, input, ctx) => OneOnlyEnds(db.mesas, k, CreateMesa(input, ctx).value, id);
      case _ => NoneOnlyEnds(db.mesas, id);
    }
  }

  lemma {:induction false} OnlyEndsTwice(a: Mesa, b: Mesa, c: Mesa)
    requires OnlyEnds(a, b) && Later(b, c) && (b.settledAt.None? ==> OnlyEnds(b, c))
    ensures OnlyEnds(a, c)
  {}

  lemma {:induction false} CloserStays(db: Db, e: Event, c: Closer)
    requires Inv(db) && Enabled(db, e) && CloserOk(db, c)
    ensures CloserOk(Apply(db, e), c)
  {
    StepKeepsInv(db, e);
    StepMovesOn(db, e, c.mesa);
    StepExtendsBook(db, e);
    BookKeepsMesa(db.book, Apply(db, e).book, c.seen);
    if c.seen.milestones.initializationStatus == Some(READY) && c.seen.settledAt.None? {
      if db.mesas[c.mesa].settledAt.None? {
        StartedOnlyEnds(db, e, c.mesa);
      }
      OnlyEndsTwice(c.seen, db.mesas[c.mesa], Apply(db, e).mesas[c.mesa]);
    }
  }

  // ---- closing by date ----

  lemma {:induction false} JoinIsDue(m: Mesa, r: Request, found: Findings, joined: Mesa, now: Time)
    requires DueBy(m, now)
    requires Joined(Opened(m, r.publication), r.userId, found.scoreInitial, found.approvedAt, found.open) == Ok(joined)
    ensures DueBy(joined, now)
  {}

  lemma {:induction false} NewIsDue(input: CreateInput, ctx: CreateContext, m: Mesa, now: Time)
    requires CreateMesa(input, ctx) == Ok(m)
    ensures DueBy(m, now)
  {
    CreatedMesaIsNew(input, ctx, m);
  }

  lemma {:induction false} OneIsDue(mesas: map<MesaId, Mesa>, k: MesaId, m: Mesa, now: Time)
    requires AllDueBy(mesas, now) && DueBy(m, now)
    ensures AllDueBy(mesas[k := m], now)
  {}

  lemma {:induction false} StageIsDue(b: Book, m: Mesa, stage: Stage, now: Time)
    requires DueBy(m, now) && MesaOk(b, m) && StageAllowed(m, stage)
    ensures DueBy(AtStage(b, m, stage, now), now)
  {
    if stage.DraftEdited? {
      DraftIsNew(b, m);
    }
  }

  /** The other changes keep the terms of the Mesa and the closing of its registration. */
  lemma {:induction false} SameIsDue(m: Mesa, after: Mesa, now: Time)
    requires DueBy(m, now) && after.terms == m.terms
    requires after.milestones.registrationClosedAt == m.milestones.registrationClosedAt
    ensures DueBy(after, now)
  {}

  lemma {:induction false} StagesAreDue(db: Db, k: MesaId, stage: Stage)
    requires Inv(db) && k in db.mesas && StageAllowed(db.mesas[k], stage) && DueOk(db)
    ensures AllDueBy(db.mesas[k := AtStage(db.book, db.mesas[k], stage, db.now)], db.now)
  {
    StageIsDue(db.book, db.mesas[k], stage, db.now);
    OneIsDue(db.mesas, k, AtStage(db.book, db.mesas[k], stage, db.now), db.now);
  }

  lemma {:induction false} ClosingsAreDue(db: Db, k: MesaId, end: Option<Time>, force: bool, activePro: set<UserId>,
                                          c: Closing)
    requires Inv(db) && k in db.mesas && DueOk(db)
    requires CloseMesa(db.book, k, db.mesas[k], end, force, db.wallets, activePro, db.now) == Ok(c)
    ensures AllDueBy(db.mesas[k := c.mesa], db.now)
  {
    ClosedMesaFacts(db, k, end, force, activePro, c);
    SameIsDue(db.mesas[k], c.mesa, db.now);
    OneIsDue(db.mesas, k, c.mesa, db.now);
  }

  lemma {:induction false} JoinsAreDue(db: Db, r: Request, found: Findings, inviteAt: Time, after: Db)
    requires JoinDb(db, r, found, inviteAt) == Ok(after) && DueOk(db)
    ensures DueOk(after)
  {
    JoinIsDue(db.mesas[r.mesa], r, found, after.mesas[r.mesa], db.now);
    OneIsDue(db.mesas, r.mesa, after.mesas[r.mesa], db.now);
  }

  lemma {:induction false} StepKeepsDue(db: Db, e: Event)
    requires Inv(db) && Enabled(db, e) && DueOk(db)
    ensures DueOk(Apply(db, e))
  {
    match e {
      case StageReached(k, stage) => StagesAreDue(db, k, stage);
      case MesaClosed(k, end, force, activePro) =>
        ClosingsAreDue(db, k, end, force, activePro,
                       CloseMesa(db.book, k, db.mesas[k], end, force, db.wallets, activePro, db.now).value);
      case JoinCommitted(r, found, inviteAt) =>
        JoinsAreDue(db, r, found, inviteAt, JoinDb(db, r, found, inviteAt).value);
      case MesaCreated(k, input, ctx) =>
        NewIsDue(input, ctx, CreateMesa(input, ctx).value, db.now);
        OneIsDue(db.mesas, k, CreateMesa(input, ctx).value, db.now);
      case _ =>
    }
  }

  // ---- the concurrent system ----

  datatype Action =
    | Began(tx: TxId, request: Request)
    | Executed(tx: TxId, activePro: bool)
    | JoinEnded(tx: TxId)
    | RolledBack(tx: TxId)
    | ClosingBegan(tx: TxId, mesa: MesaId, force: bool)
    | ClosingEnded(tx: TxId, subscribers: set<UserId>)
    | ClosingAbandoned(tx: TxId)
    | Happened(event: Event)

  /** Nobody has locked what the change writes. */
  ghost predicate Unlocked(w: World, after: Db) {
    forall tx :: tx in w.joins ==> Undisturbed(w.db, after, w.joins[tx])
  }

  ghost predicate Possible(w: World, a: Action) {
    match a
    case Began(tx, _) => tx !in w.joins
    case Executed(tx, activePro) =>
      && tx in w.joins && Execute(w.db, w.joins[tx], activePro).Ok?
      && forall k :: k in w.joins && k != tx ==> !Conflict(Execute(w.db, w.joins[tx], activePro).value, w.joins[k])
    case JoinEnded(tx) => tx in w.joins && w.joins[tx].next == Commit
    case RolledBack(tx) => tx in w.joins
    case ClosingBegan(tx, id, _) => tx !in w.closers && id in w.db.mesas
    case ClosingEnded(tx, subscribers) =>
      && tx in w.closers && CloseSeen(w.db, w.closers[tx], subscribers).Ok?
      && Unlocked(w, AfterClosing(w.db, w.closers[tx].mesa, CloseSeen(w.db, w.closers[tx], subscribers).value))
    case ClosingAbandoned(tx) => tx in w.closers
    case Happened(e) => !e.JoinCommitted? && !e.MesaClosed? && Enabled(w.db, e) && Unlocked(w, Apply(w.db, e))
  }

  ghost function After(w: World, a: Action): World
    requires Possible(w, a)
  {
    match a
    case Began(tx, r) => w.(joins := w.joins[tx := NewJoin(r)])
    case Executed(tx, activePro) => w.(joins := w.joins[tx := Execute(w.db, w.joins[tx], activePro).value])
    case JoinEnded(tx) => w.(db := Committed(w.db, w.joins[tx]), joins := w.joins - {tx})
    case RolledBack(tx) => w.(joins := w.joins - {tx})
    case ClosingBegan(tx, id, force) => w.(closers := w.closers[tx := Closer(id, w.db.mesas[id], force)])
    case ClosingEnded(tx, subscribers) =>
      w.(db := AfterClosing(w.db, w.closers[tx].mesa, CloseSeen(w.db, w.closers[tx], subscribers).value),
         closers := w.closers - {tx})
    case ClosingAbandoned(tx) => w.(closers := w.closers - {tx})
    case Happened(e) => w.(db := Apply(w.db, e))
  }

  ghost predicate JoinsOk(w: World) {
    && (forall tx :: tx in w.joins ==> JoinOk(w.db, w.joins[tx]))
    && (forall k, l :: k in w.joins && l in w.joins && k != l ==> !Conflict(w.joins[k], w.joins[l]))
  }

  ghost predicate ClosersOk(w: World) {
    forall tx :: tx in w.closers ==> CloserOk(w.db, w.closers[tx])
  }

  /** The database and everything in flight are in order; a match, as in `Inv`. */
  ghost predicate WorldOk(w: World) {
    match w
    case World(db, _, _) => Inv(db) && DueOk(db) && JoinsOk(w) && ClosersOk(w)
  }

  /** The event that an action commits, if any. */
  ghost function Commits(w: World, a: Action): Option<Event>
    requires Possible(w, a)
  {
    match a
    case JoinEnded(tx) => Some(JoinCommitted(w.joins[tx].request, FindingsOf(w.joins[tx]), w.joins[tx].inviteAt))
    case ClosingEnded(tx, subscribers) =>
      var c := w.closers[tx];
      Some(MesaClosed(c.mesa, c.seen.milestones.endDate, c.force, subscribers))
    case Happened(e) => Some(e)
    case _ => None
  }

  // ---- every action refines an event ----

  lemma {:induction false} EndRefines(w: World, tx: TxId)
    requires WorldOk(w) && Possible(w, JoinEnded(tx))
    ensures Enabled(w.db, Commits(w, JoinEnded(tx)).value)
    ensures Apply(w.db, Commits(w, JoinEnded(tx)).value) == Committed(w.db, w.joins[tx])
  {
    CommitIsAJoin(w.db, w.joins[tx]);
  }

  lemma {:induction false} ClosingRefines(w: World, tx: TxId, subscribers: set<UserId>)
    requires WorldOk(w) && Possible(w, ClosingEnded(tx, subscribers))
    ensures Enabled(w.db, Commits(w, ClosingEnded(tx, subscribers)).value)
    ensures Apply(w.db, Commits(w, ClosingEnded(tx, subscribers)).value) == After(w, ClosingEnded(tx, subscribers)).db
  {
    CloseSeenIsAClose(w.db, w.closers[tx], subscribers);
  }

  lemma {:induction false} ActionRefines(w: World, a: Action)
    requires WorldOk(w) && Possible(w, a)
    ensures var e := Commits(w, a);
      if e.None? then After(w, a).db == w.db else Enabled(w.db, e.value) && After(w, a).db == Apply(w.db, e.value)
  {
    match a {
      case JoinEnded(tx) => EndRefines(w, tx);
      case ClosingEnded(tx, subscribers) => ClosingRefines(w, tx, subscribers);
      case _ =>
    }
  }

  // ---- and keeps the whole world in order ----

  /** What an event leaves of the transactions that it does not disturb. */
  lemma {:induction false} JoinSurvives(db: Db, e: Event, j: Transaction)
    requires Inv(db) && Enabled(db, e) && JoinOk(db, j) && Undisturbed(db, Apply(db, e), j)
    ensures JoinOk(Apply(db, e), j)
  {
    if j.request.mesa in db.mesas {
      StepMovesOn(db, e, j.request.mesa);
    }
    UndisturbedStays(db, Apply(db, e), j);
  }

  lemma {:induction false} JoinsSurvive(w: World, e: Event, joins: map<TxId, Transaction>)
    requires Inv(w.db) && JoinsOk(w) && Enabled(w.db, e)
    requires forall tx :: tx in joins ==>
      tx in w.joins && joins[tx] == w.joins[tx] && Undisturbed(w.db, Apply(w.db, e), w.joins[tx])
    ensures JoinsOk(World(Apply(w.db, e), joins, map[]))
  {
    forall tx | tx in joins ensures JoinOk(Apply(w.db, e), joins[tx]) {
      JoinSurvives(w.db, e, w.joins[tx]);
    }
  }

  lemma {:induction false} ClosersSurvive(w: World, e: Event, closers: map<TxId, Closer>)
    requires Inv(w.db) && ClosersOk(w) && Enabled(w.db, e)
    requires forall tx :: tx in closers ==> tx in w.closers && closers[tx] == w.closers[tx]
    ensures ClosersOk(World(Apply(w.db, e), map[], closers))
  {
    forall tx | tx in closers ensures CloserOk(Apply(w.db, e), closers[tx]) {
      CloserStays(w.db, e, w.closers[tx]);
    }
  }

  lemma {:induction false} OthersSurvive(w: World, e: Event, joins: map<TxId, Transaction>, closers: map<TxId, Closer>)
    requires WorldOk(w) && Enabled(w.db, e)
    requires forall tx :: tx in joins ==>
      tx in w.joins && joins[tx] == w.joins[tx] && Undisturbed(w.db, Apply(w.db, e), w.joins[tx])
    requires forall tx :: tx in closers ==> tx in w.closers && closers[tx] == w.closers[tx]
    ensures WorldOk(World(Apply(w.db, e), joins, closers))
  {
    StepKeepsInv(w.db, e);
    StepKeepsDue(w.db, e);
    JoinsSurvive(w, e, joins);
    ClosersSurvive(w, e, closers);
  }

  lemma {:induction false} BeginningIsOk(w: World, tx: TxId, r: Request)
    requires WorldOk(w) && tx !in w.joins
    ensures WorldOk(w.(joins := w.joins[tx := NewJoin(r)]))
  {}

  lemma {:induction false} ExecutionIsOk(w: World, tx: TxId, activePro: bool)
    requires WorldOk(w) && Possible(w, Executed(tx, activePro))
    ensures WorldOk(After(w, Executed(tx, activePro)))
  {
    ExecuteKeeps(w.db, w.joins[tx], activePro, Execute(w.db, w.joins[tx], activePro).value);
  }

  lemma {:induction false} ClosingBeginningIsOk(w: World, tx: TxId, id: MesaId, force: bool)
    requires WorldOk(w) && id in w.db.mesas
    ensures WorldOk(w.(closers := w.closers[tx := Closer(id, w.db.mesas[id], force)]))
  {}

  lemma {:induction false} EndIsOk(w: World, tx: TxId)
    requires WorldOk(w) && Possible(w, JoinEnded(tx))
    ensures WorldOk(After(w, JoinEnded(tx)))
  {
    var e := Commits(w, JoinEnded(tx)).value;
    EndRefines(w, tx);
    forall k | k in w.joins - {tx} ensures Undisturbed(w.db, Apply(w.db, e), w.joins[k]) {
      CommitDisturbsNobody(w.db, w.joins[tx], w.joins[k]);
    }
    OthersSurvive(w, e, w.joins - {tx}, w.closers);
  }

  lemma {:induction false} ClosingEndIsOk(w: World, tx: TxId, subscribers: set<UserId>)
    requires WorldOk(w) && Possible(w, ClosingEnded(tx, subscribers))
    ensures WorldOk(After(w, ClosingEnded(tx, subscribers)))
  {
    ClosingRefines(w, tx, subscribers);
    OthersSurvive(w, Commits(w, ClosingEnded(tx, subscribers)).value, w.joins, w.closers - {tx});
  }

  lemma {:induction false} ActionKeepsWorld(w: World, a: Action)
    requires WorldOk(w) && Possible(w, a)
    ensures WorldOk(After(w, a))
  {
    match a {
      case Began(tx, r) => BeginningIsOk(w, tx, r);
      case Executed(tx, activePro) => ExecutionIsOk(w, tx, activePro);
      case JoinEnded(tx) => EndIsOk(w, tx);
      case RolledBack(tx) =>
      case ClosingBegan(tx, id, force) => ClosingBeginningIsOk(w, tx, id, force);
      case ClosingEnded(tx, subscribers) => ClosingEndIsOk(w, tx, subscribers);
      case ClosingAbandoned(tx) =>
      case Happened(e) => OthersSurvive(w, e, w.joins, w.closers);
    }
  }

  // ---- runs ----

  ghost predicate RunsTo(w: World, actions: seq<Action>, final: World)
    decreases |actions|
  {
    if actions == [] then final == w
    else Possible(w, actions[0]) && RunsTo(After(w, actions[0]), actions[1..], final)
  }

  const START := World(EMPTY, map[], map[])

  /** What the actions of a run commit, in their order. */
  ghost function CommitsOf(w: World, actions: seq<Action>, final: World): seq<Event>
    requires RunsTo(w, actions, final)
    decreases |actions|
  {
    if actions == [] then []
    else
      var e, rest := Commits(w, actions[0]), CommitsOf(After(w, actions[0]), actions[1..], final);
      if e.None? then rest else [e.value] + rest
  }

  /** Whatever the interleaving: what the run commits, in the order of the commits, are whole
      operations executed one after the other, and they lead to the same database. */
  lemma {:induction false} RunIsSerial(w: World, actions: seq<Action>, final: World)
    requires WorldOk(w) && RunsTo(w, actions, final)
    ensures WorldOk(final) && Reaches(w.db, CommitsOf(w, actions, final), final.db)
    decreases |actions|
  {
    if actions != [] {
      ActionRefines(w, actions[0]);
      ActionKeepsWorld(w, actions[0]);
      RunIsSerial(After(w, actions[0]), actions[1..], final);
      var e, rest := Commits(w, actions[0]), CommitsOf(After(w, actions[0]), actions[1..], final);
      if e.Some? {
        assert ([e.value] + rest)[1..] == rest;
      }
    }
  }

  lemma {:induction false} StartIsOk()
    ensures WorldOk(START)
  {
    EmptyIsOk();
  }
}
