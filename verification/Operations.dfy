/** Every operation of the services as one step on the database. */
module Operations {
  import opened Collections
  import opened Tiebreak
  import opened Prize
  import opened Domain
  import opened MesaRules
  import opened Book
  import opened BookRun
  import opened Window
  import opened Wallets
  import opened Join
  import opened Lifecycle
  import opened Settlement
  import opened Competition

  // ---- what the join services do, executed without interruption ----

  function FoundNow(db: Db, m: Mesa, u: UserId): Findings {
    Findings(GetScoreTotalBefore(db.book, u, BaselineAt(m, db.now)), db.now, FirstOpen(db.book, db.book.numbers))
  }

  function JoinWhole(db: Db, r: Request, activePro: bool): Result<Db, JoinError> {
    if r.mesa !in db.mesas then Err(MesaNotFound)
    else
      var m := Opened(db.mesas[r.mesa], r.publication);
      var problem, refused :=
        ReadProblem(m, r.publication, activePro, db.now), ParticipantProblem(Find(m.participants, r.userId));
      if problem.Some? then Err(problem.value)
      else if refused.Some? then Err(refused.value)
      else JoinDb(db, r, FoundNow(db, m, r.userId), db.now)
  }

  /** A user who takes part already is told so, and no use of the invite is consumed. */
  function UseInviteWhole(db: Db, i: InviteId, u: UserId, activePro: bool): Result<Db, JoinError> {
    if i !in db.invites then Err(InviteNotFound)
    else
      var r := Request(db.invites[i].mesa, u, false, Some(i));
      if r.mesa in db.mesas && TakesPart(db.mesas[r.mesa], u) then Ok(db)
      else if Reserved(db.invites[i], db.now).None? then Err(InviteUnavailable)
      else JoinWhole(db, r, activePro)
  }

  predicate TakesPart(m: Mesa, u: UserId) {
    var existing := Find(m.participants, u);
    existing.Some? && existing.value.status == APPROVED
  }

  function PublishWhole(db: Db, id: MesaId, requestedBy: UserId, activePro: bool): Result<Db, JoinError> {
    if id !in db.mesas then Err(MesaNotFound)
    else
      var m := db.mesas[id];
      if m.terms.createdBy != requestedBy then Err(NotEligible)
      else if m.status != MesaStatus.DRAFT then Err(MesaNotOpen)
      else if m.terms.category == PAID && !m.terms.createdByAdmin && !activePro then Err(NotEligible)
      else if m.terms.createdByAdmin then Ok(WithMesa(db, id, m.(status := ACTIVE)))
      else JoinWhole(db, Request(id, requestedBy, true, None), activePro)
  }

  /** Why a Mesa could not be created or edited and published in one transaction. */
  datatype NowError = NotSaved(creation: CreationError) | NotPublished(publication: JoinError)

  /** The Mesa saved as `saved` says, and published at once by the user who saves it. */
  function PublishedNow(db: Db, id: MesaId, saved: Result<Mesa, CreationError>, u: UserId, activePro: bool)
    : Result<Db, NowError>
  {
    if saved.Err? then Err(NotSaved(saved.error))
    else
      var published := PublishWhole(WithMesa(db, id, saved.value), id, u, activePro);
      if published.Err? then Err(NotPublished(published.error)) else Ok(published.value)
  }

  /** Reserving the use first and recording it last makes no difference to the join between. */
  lemma {:induction false} JoinSetsInviteAside(db: Db, i: InviteId, u: UserId, activePro: bool)
    requires i in db.invites && Reserved(db.invites[i], db.now).Some?
    ensures var (id, reserved) := (db.invites[i].mesa, Reserved(db.invites[i], db.now).value);
      var aside := db.(invites := db.invites[i := reserved]);
      var (whole, inner) := (JoinWhole(db, Request(id, u, false, Some(i)), activePro),
                             JoinWhole(aside, Request(id, u, false, None), activePro));
      && (inner.Err? ==> whole == Err(inner.error))
      && (inner.Ok? ==>
        && whole.Ok? && inner.value == whole.value.(invites := aside.invites)
        && whole.value.invites == db.invites[i := reserved.(usedBy := reserved.usedBy + [u])])
  {}

  function CloseWhole(db: Db, id: MesaId, force: bool, activePro: set<UserId>): Result<Db, CloseError> {
    if id !in db.mesas then Err(RankingNotFound)
    else
      var m := db.mesas[id];
      var closing := CloseMesa(db.book, id, m, m.milestones.endDate, force, db.wallets, activePro, db.now);
      if closing.Err? then Err(closing.error) else Ok(AfterClosing(db, id, closing.value))
  }

  function FrozenAndSettled(db: Db, id: MesaId, rows: seq<Ranked<Row>>, activePro: set<UserId>): Result<Db, CloseError>
    requires id in db.mesas
  {
    var frozen := db.mesas[id].(participants := Frozen(db.mesas[id].participants, rows));
    if frozen.settledAt.Some? then Ok(WithMesa(db, id, frozen.(status := MesaStatus.CLOSED)))
    else
      var settled := Settle(id, frozen, rows, db.wallets, activePro, db.now);
      if settled.Err? then Err(settled.error)
      else Ok(AfterClosing(db, id, settled.value.(mesa := settled.value.mesa.(status := MesaStatus.CLOSED))))
  }

  lemma {:induction false} CloseWholeInParts(db: Db, id: MesaId, force: bool, activePro: set<UserId>)
    requires id in db.mesas && CloseProblem(db.mesas[id], db.mesas[id].milestones.endDate, force, db.now).None?
    ensures var (m, end) := (db.mesas[id], db.mesas[id].milestones.endDate);
      CloseWhole(db, id, force, activePro) == FrozenAndSettled(
        db, id, BuildRows(db.book, m.terms, m.milestones, end, Approved(m.participants), db.now), activePro)
  {}

  lemma {:induction false} FrozenNext(ps: seq<Participant>, rows: seq<Ranked<Row>>, k: nat, i: nat)
    requires OneRowPerUser(ps) && k < |rows| && i < |ps| && ps[i].userId == rows[k].row.userId
    ensures Frozen(ps, rows[..k + 1])
      == Frozen(ps, rows[..k])[i := FrozenAs(ps[i], rows[k])]
  {
    assert rows[..k + 1][..k] == rows[..k];
  }

  lemma {:induction false} FrozenUsers(ps: seq<Participant>, rows: seq<Ranked<Row>>)
    ensures forall i :: 0 <= i < |ps| ==> Frozen(ps, rows)[i].userId == ps[i].userId
    ensures forall i :: 0 <= i < |ps| ==>
      Frozen(ps, rows)[i] == ps[i].(score := Frozen(ps, rows)[i].score, position := Frozen(ps, rows)[i].position,
                                    tiebreak := Frozen(ps, rows)[i].tiebreak)
  {}

  lemma {:induction false} CreditAllStops(wallets: map<UserId, Wallet>, id: MesaId, payouts: seq<Payout>, k: nat)
    requires k <= |payouts| && CreditAll(wallets, id, payouts[..k]).None?
    ensures CreditAll(wallets, id, payouts).None?
    decreases |payouts| - k
  {
    if k < |payouts| {
      assert payouts[..k + 1][..k] == payouts[..k];
      CreditAllStops(wallets, id, payouts, k + 1);
    } else {
      assert payouts[..k] == payouts;
    }
  }

  lemma {:induction false} FrozenSkips(ps: seq<Participant>, rows: seq<Ranked<Row>>, k: nat)
    requires k < |rows| && forall p :: p in ps ==> p.userId != rows[k].row.userId
    ensures Frozen(ps, rows[..k + 1]) == Frozen(ps, rows[..k])
  {
    assert rows[..k + 1][..k] == rows[..k];
    forall i | 0 <= i < |ps| ensures FrozenRow(ps[i], rows[..k + 1]) == FrozenRow(ps[i], rows[..k]) {
      assert ps[i] in ps;
    }
  }

  // ---- what the jobs do to all Mesas ----

  function AllClosedWhenDue(mesas: map<MesaId, Mesa>, open: Option<RoundNo>, now: Time): map<MesaId, Mesa> {
    map id | id in mesas :: CloseDue(mesas[id], open, now)
  }

  function AllPendingCaptured(b: Book, mesas: map<MesaId, Mesa>, now: Time): map<MesaId, Mesa> {
    map id | id in mesas :: Capture(b, mesas[id], now)
  }

  function AllFinishedWhenDue(b: Book, mesas: map<MesaId, Mesa>): map<MesaId, Mesa> {
    map id | id in mesas :: FinishDue(b, mesas[id])
  }

  /** The first `k` of the selected Mesas have been changed by `f`, the others not yet. */
  ghost predicate Updated(before: map<MesaId, Mesa>, after: map<MesaId, Mesa>, selected: seq<MesaId>, k: nat,
                          f: Mesa -> Mesa)
    requires k <= |selected|
  {
    && after.Keys == before.Keys && (forall id :: id in selected ==> id in before)
    && forall id :: id in before ==> after[id] == if id in selected[..k] then f(before[id]) else before[id]
  }

  lemma {:induction false} NextUpdated(before: map<MesaId, Mesa>, after: map<MesaId, Mesa>, selected: seq<MesaId>,
                                       k: nat, f: Mesa -> Mesa)
    requires k < |selected| && Distinct(selected) && Updated(before, after, selected, k, f)
    ensures selected[k] in before && after[selected[k]] == before[selected[k]]
    ensures Updated(before, after[selected[k] := f(before[selected[k]])], selected, k + 1, f)
    ensures f(before[selected[k]]) == before[selected[k]] ==> Updated(before, after, selected, k + 1, f)
  {
    assert selected[k] in selected;
    PrefixGrows(selected, k);
    var id := selected[k];
    assert after[id] == before[id];
  }

  lemma {:induction false} AllUpdated(before: map<MesaId, Mesa>, after: map<MesaId, Mesa>, selected: seq<MesaId>,
                                      f: Mesa -> Mesa)
    requires Updated(before, after, selected, |selected|, f)
    requires forall id :: id in before && id !in selected ==> f(before[id]) == before[id]
    ensures after == map id | id in before :: f(before[id])
  {
    assert selected[..|selected|] == selected;
    forall id | id in before ensures after[id] == f(before[id]) {
      assert id in selected || id !in selected;
    }
  }
}
