/** Every operation of the services is a run of events of the competition, so that everything
    proved of events holds of the services. */
module OperationRuns {
  import opened Collections
  import opened Tiebreak
  import opened Prize
  import opened Domain
  import opened MesaRules
  import opened Book
  import opened BookRun
  import opened Wallets
  import opened Settlement
  import opened Competition
  import opened CompetitionInvariant
  import opened InterleavingLaws
  import opened Concurrency
  import opened Operations
  import opened OperationsLaws

  datatype Operation =
    | Create(mesa: MesaId, input: CreateInput, context: CreateContext)
    | CreateNow(mesa: MesaId, input: CreateInput, context: CreateContext, activePro: bool)
    | Edit(mesa: MesaId, input: CreateInput, context: CreateContext)
    | EditNow(mesa: MesaId, input: CreateInput, context: CreateContext, activePro: bool)
    | Publish(mesa: MesaId, requestedBy: UserId, activePro: bool)
    | Join(mesa: MesaId, userId: UserId, activePro: bool)
    | UseInvite(invite: InviteId, userId: UserId, activePro: bool)
    | CloseDueRegistrations
    | CapturePending
    | FinishDueRoundMesas
    | CloseRanking(mesa: MesaId, force: bool, subscribers: set<UserId>)
    | AdminCredit(userId: UserId, amount: int)
    | AdminDebit(userId: UserId, amount: int)

  function OrUnchanged<E>(db: Db, done: Result<Db, E>): Db {
    if done.Ok? then done.value else db
  }

  /** The database after an operation, which is as it was when the operation fails. */
  function Performed(db: Db, o: Operation): Db {
    match o
    case Create(id, input, context) =>
      var created := CreateMesa(input, context);
      if id in db.mesas || created.Err? then db else WithMesa(db, id, created.value)
    case CreateNow(id, input, context, activePro) =>
      if id in db.mesas then db
      else OrUnchanged(db, PublishedNow(db, id, CreateMesa(input, context), input.createdBy, activePro))
    case Edit(id, input, context) =>
      if id !in db.mesas || EditDraft(db.mesas[id], input, context).Err? then db
      else WithMesa(db, id, EditDraft(db.mesas[id], input, context).value)
    case EditNow(id, input, context, activePro) =>
      if id !in db.mesas then db
      else OrUnchanged(db, PublishedNow(db, id, EditDraft(db.mesas[id], input, context), input.createdBy, activePro))
    case Publish(id, requestedBy, activePro) => OrUnchanged(db, PublishWhole(db, id, requestedBy, activePro))
    case Join(id, u, activePro) => OrUnchanged(db, JoinWhole(db, Request(id, u, false, None), activePro))
    case UseInvite(i, u, activePro) => OrUnchanged(db, UseInviteWhole(db, i, u, activePro))
    case CloseDueRegistrations =>
      db.(mesas := AllClosedWhenDue(db.mesas, FirstOpen(db.book, db.book.numbers), db.now))
    case CapturePending => db.(mesas := AllPendingCaptured(db.book, db.mesas, db.now))
    case FinishDueRoundMesas => db.(mesas := AllFinishedWhenDue(db.book, db.mesas))
    case CloseRanking(id, force, subscribers) => OrUnchanged(db, CloseWhole(db, id, force, subscribers))
    case AdminCredit(u, amount) =>
      if amount <= 0 then db
      else WithWallet(db, u, Append(WalletOf(db.wallets, u), LedgerEntry(CREDIT, amount, None)))
    case AdminDebit(u, amount) =>
      if amount <= 0 || u !in db.wallets || db.wallets[u].balance < amount then db
      else WithWallet(db, u, Append(db.wallets[u], LedgerEntry(DEBIT, amount, None)))
  }

  // ---- jobs ----

  /** The stages that a job brings about. */
  predicate OfAJob(stage: Stage) {
    !stage.Published? && !stage.DraftEdited?
  }

  function StageEvents(ids: seq<MesaId>, stage: Stage): seq<Event> {
    if ids == [] then [] else [StageReached(ids[0], stage)] + StageEvents(ids[1..], stage)
  }

  /** The listed Mesas at the stage. */
  function Staged(db: Db, ids: seq<MesaId>, stage: Stage): map<MesaId, Mesa> {
    map id | id in db.mesas :: if id in ids then AtStage(db.book, db.mesas[id], stage, db.now) else db.mesas[id]
  }

  lemma {:induction false} StagedNext(db: Db, ids: seq<MesaId>, stage: Stage)
    requires ids != [] && Distinct(ids) && ids[0] in db.mesas
    ensures var next := WithMesa(db, ids[0], AtStage(db.book, db.mesas[ids[0]], stage, db.now));
      Staged(next, ids[1..], stage) == Staged(db, ids, stage)
  {
    assert ids == [ids[0]] + ids[1..];
    assert ids[0] !in ids[1..];
  }

  /** Bringing Mesas to a stage one after the other brings them there all at once. */
  lemma {:induction false} StagesRun(db: Db, ids: seq<MesaId>, stage: Stage)
    requires Distinct(ids) && OfAJob(stage) && forall id :: id in ids ==> id in db.mesas
    ensures Reaches(db, StageEvents(ids, stage), db.(mesas := Staged(db, ids, stage)))
    decreases |ids|
  {
    if ids == [] {
      assert Staged(db, ids, stage) == db.mesas;
    } else {
      var next := WithMesa(db, ids[0], AtStage(db.book, db.mesas[ids[0]], stage, db.now));
      StagedNext(db, ids, stage);
      StagesRun(next, ids[1..], stage);
      StageFirst(db, ids, stage, next, db.(mesas := Staged(db, ids, stage)));
    }
  }

  lemma {:induction false} StageFirst(db: Db, ids: seq<MesaId>, stage: Stage, next: Db, final: Db)
    requires ids != [] && ids[0] in db.mesas && OfAJob(stage)
    requires next == WithMesa(db, ids[0], AtStage(db.book, db.mesas[ids[0]], stage, db.now))
    requires Reaches(next, StageEvents(ids[1..], stage), final)
    ensures Reaches(db, StageEvents(ids, stage), final)
  {
    var events := StageEvents(ids, stage);
    assert events[1..] == StageEvents(ids[1..], stage);
    assert Enabled(db, events[0]) && Apply(db, events[0]) == next;
  }

  lemma {:induction false} Listing<T>(elements: set<T>) returns (rows: seq<T>)
    ensures Distinct(rows) && forall x :: x in rows <==> x in elements
    decreases |elements|
  {
    if elements == {} {
      rows := [];
    } else {
      var x :| x in elements;
      rows := Listing(elements - {x});
      rows := rows + [x];
    }
  }

  /** A job is a run in which every Mesa reaches the stage, most of them without any change. */
  lemma {:induction false} JobIsARun(db: Db, stage: Stage, after: map<MesaId, Mesa>) returns (events: seq<Event>)
    requires OfAJob(stage) && after == map id | id in db.mesas :: AtStage(db.book, db.mesas[id], stage, db.now)
    ensures Reaches(db, events, db.(mesas := after))
  {
    var ids := Listing(db.mesas.Keys);
    StagesRun(db, ids, stage);
    assert Staged(db, ids, stage) == after;
    events := StageEvents(ids, stage);
  }

  // ---- the other operations are single events ----

  lemma {:induction false} OneEvent(db: Db, e: Event, after: Db)
    requires Enabled(db, e) && Apply(db, e) == after
    ensures Reaches(db, [e], after)
  {
    assert [e][1..] == [];
  }

  lemma {:induction false} Nothing(db: Db)
    ensures Reaches(db, [], db)
  {}

  lemma {:induction false} JoinIsAnEvent(db: Db, r: Request, activePro: bool, after: Db) returns (events: seq<Event>)
    requires Inv(db) && DueOk(db) && JoinWhole(db, r, activePro) == Ok(after)
    requires r.publication ==> r.mesa in db.mesas && Joinable(db.mesas[r.mesa], r)
    requires r.invite.Some? ==> r.invite.value in db.invites && db.invites[r.invite.value].mesa == r.mesa
    ensures Reaches(db, events, after)
  {
    WholeJoinIsAnEvent(db, r, activePro);
    var e := JoinCommitted(r, FoundNow(db, Opened(db.mesas[r.mesa], r.publication), r.userId), db.now);
    OneEvent(db, e, after);
    events := [e];
  }

  lemma {:induction false} PublicationIsAnEvent(db: Db, id: MesaId, requestedBy: UserId, activePro: bool, after: Db)
      returns (events: seq<Event>)
    requires Inv(db) && DueOk(db) && PublishWhole(db, id, requestedBy, activePro) == Ok(after)
    ensures Reaches(db, events, after)
  {
    if db.mesas[id].terms.createdByAdmin {
      OneEvent(db, StageReached(id, Published), after);
      events := [StageReached(id, Published)];
    } else {
      events := JoinIsAnEvent(db, Request(id, requestedBy, true, None), activePro, after);
    }
  }

  lemma {:induction false} InviteUseIsAnEvent(db: Db, i: InviteId, u: UserId, activePro: bool, after: Db)
      returns (events: seq<Event>)
    requires Inv(db) && DueOk(db) && UseInviteWhole(db, i, u, activePro) == Ok(after)
    ensures Reaches(db, events, after)
  {
    if after == db {
      Nothing(db);
      events := [];
    } else {
      events := JoinIsAnEvent(db, Request(db.invites[i].mesa, u, false, Some(i)), activePro, after);
    }
  }

  lemma {:induction false} ClosingIsAnEvent(db: Db, id: MesaId, force: bool, activePro: set<UserId>, after: Db)
      returns (events: seq<Event>)
    requires CloseWhole(db, id, force, activePro) == Ok(after)
    ensures Reaches(db, events, after)
  {
    var e := MesaClosed(id, db.mesas[id].milestones.endDate, force, activePro);
    OneEvent(db, e, after);
    events := [e];
  }

  lemma {:induction false} CreationIsAnEvent(db: Db, id: MesaId, input: CreateInput, context: CreateContext, m: Mesa)
      returns (events: seq<Event>)
    requires id !in db.mesas && CreateMesa(input, context) == Ok(m)
    ensures Reaches(db, events, WithMesa(db, id, m))
  {
    OneEvent(db, MesaCreated(id, input, context), WithMesa(db, id, m));
    events := [MesaCreated(id, input, context)];
  }

  lemma {:induction false} EditIsAnEvent(db: Db, id: MesaId, input: CreateInput, context: CreateContext, m: Mesa)
      returns (events: seq<Event>)
    requires id in db.mesas && EditDraft(db.mesas[id], input, context) == Ok(m)
    ensures Reaches(db, events, WithMesa(db, id, m))
  {
    OneEvent(db, StageReached(id, DraftEdited(input, context)), WithMesa(db, id, m));
    events := [StageReached(id, DraftEdited(input, context))];
  }

  lemma {:induction false} RunKeepsDue(db: Db, events: seq<Event>, final: Db)
    requires Inv(db) && DueOk(db) && Reaches(db, events, final)
    ensures DueOk(final)
    decreases |events|
  {
    if events != [] {
      StepKeepsInv(db, events[0]);
      StepKeepsDue(db, events[0]);
      RunKeepsDue(Apply(db, events[0]), events[1..], final);
    }
  }

  lemma {:induction false} RunOn(db: Db, x: seq<Event>, mid: Db, y: seq<Event>, final: Db)
    requires Reaches(db, x, mid) && Reaches(mid, y, final)
    ensures Reaches(db, x + y, final)
    decreases |x|
  {
    if x == [] {
      assert x + y == y;
    } else {
      RunOn(Apply(db, x[0]), x[1..], mid, y, final);
      assert (x + y)[1..] == x[1..] + y;
    }
  }

  /** Saving is a run, and so is the publication that follows it. */
  lemma {:induction false} PublicationFollows(db: Db, x: seq<Event>, mid: Db, id: MesaId, u: UserId, activePro: bool,
                                              after: Db) returns (events: seq<Event>)
    requires Inv(db) && DueOk(db) && Reaches(db, x, mid) && PublishWhole(mid, id, u, activePro) == Ok(after)
    ensures Reaches(db, events, after)
  {
    RunKeepsInv(db, x, mid);
    RunKeepsDue(db, x, mid);
    var y := PublicationIsAnEvent(mid, id, u, activePro, after);
    RunOn(db, x, mid, y, after);
    events := x + y;
  }

  lemma {:induction false} CreationNowIsARun(db: Db, id: MesaId, input: CreateInput, context: CreateContext,
                                             activePro: bool, after: Db) returns (events: seq<Event>)
    requires Inv(db) && DueOk(db) && id !in db.mesas
    requires PublishedNow(db, id, CreateMesa(input, context), input.createdBy, activePro) == Ok(after)
    ensures Reaches(db, events, after)
  {
    var m := CreateMesa(input, context).value;
    var x := CreationIsAnEvent(db, id, input, context, m);
    events := PublicationFollows(db, x, WithMesa(db, id, m), id, input.createdBy, activePro, after);
  }

  lemma {:induction false} EditNowIsARun(db: Db, id: MesaId, input: CreateInput, context: CreateContext,
                                         activePro: bool, after: Db) returns (events: seq<Event>)
    requires Inv(db) && DueOk(db) && id in db.mesas
    requires PublishedNow(db, id, EditDraft(db.mesas[id], input, context), input.createdBy, activePro) == Ok(after)
    ensures Reaches(db, events, after)
  {
    var m := EditDraft(db.mesas[id], input, context).value;
    var x := EditIsAnEvent(db, id, input, context, m);
    events := PublicationFollows(db, x, WithMesa(db, id, m), id, input.createdBy, activePro, after);
  }

  lemma {:induction false} MovementIsAnEvent(db: Db, u: UserId, e: LedgerEntry) returns (events: seq<Event>)
    requires MovementAllowed(db, u, e)
    ensures Reaches(db, events, WithWallet(db, u, Append(WalletOf(db.wallets, u), e)))
  {
    OneEvent(db, WalletMoved(u, e), WithWallet(db, u, Append(WalletOf(db.wallets, u), e)));
    events := [WalletMoved(u, e)];
  }

  lemma {:induction false} JobsAreRuns(db: Db, o: Operation) returns (events: seq<Event>)
    requires o.CloseDueRegistrations? || o.CapturePending? || o.FinishDueRoundMesas?
    ensures Reaches(db, events, Performed(db, o))
  {
    if o.CloseDueRegistrations? {
      var open := FirstOpen(db.book, db.book.numbers);
      events := JobIsARun(db, RegistrationDue(open), AllClosedWhenDue(db.mesas, open, db.now));
    } else if o.CapturePending? {
      events := JobIsARun(db, ScoresCaptured, AllPendingCaptured(db.book, db.mesas, db.now));
    } else {
      events := JobIsARun(db, RoundsFinished, AllFinishedWhenDue(db.book, db.mesas));
    }
  }

  /** Whatever an operation of the services does to a database in order, a run of events does. */
  lemma {:induction false} OperationIsARun(db: Db, o: Operation) returns (events: seq<Event>)
    requires Inv(db) && DueOk(db)
    ensures Reaches(db, events, Performed(db, o))
  {
    var after := Performed(db, o);
    if after == db {
      Nothing(db);
      return [];
    }
    match o {
      case Create(id, input, context) =>
        events := CreationIsAnEvent(db, id, input, context, CreateMesa(input, context).value);
      case CreateNow(id, input, context, activePro) =>
        events := CreationNowIsARun(db, id, input, context, activePro, after);
      case Edit(id, input, context) =>
        events := EditIsAnEvent(db, id, input, context, EditDraft(db.mesas[id], input, context).value);
      case EditNow(id, input, context, activePro) =>
        events := EditNowIsARun(db, id, input, context, activePro, after);
      case Publish(id, requestedBy, activePro) => events := PublicationIsAnEvent(db, id, requestedBy, activePro, after);
      case Join(id, u, activePro) => events := JoinIsAnEvent(db, Request(id, u, false, None), activePro, after);
      case UseInvite(i, u, activePro) => events := InviteUseIsAnEvent(db, i, u, activePro, after);
      case CloseRanking(id, force, subscribers) => events := ClosingIsAnEvent(db, id, force, subscribers, after);
      case AdminCredit(u, amount) => events := MovementIsAnEvent(db, u, LedgerEntry(CREDIT, amount, None));
      case AdminDebit(u, amount) => events := MovementIsAnEvent(db, u, LedgerEntry(DEBIT, amount, None));
      case _ => events := JobsAreRuns(db, o);
    }
  }

  /** So every operation, whether it goes through or not, keeps the database in order. */
  lemma {:induction false} OperationKeepsInv(db: Db, o: Operation)
    requires Inv(db) && DueOk(db)
    ensures Inv(Performed(db, o)) && DueOk(Performed(db, o))
  {
    var events := OperationIsARun(db, o);
    RunKeepsInv(db, events, Performed(db, o));
    RunKeepsDue(db, events, Performed(db, o));
  }
}
