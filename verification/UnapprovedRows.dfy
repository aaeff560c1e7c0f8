/** What the seats of a Mesa count when it has participants that are not approved -- pending or
    rejected, as earlier versions of the services left them. Nothing else is taken for granted:
    the statements, the locks and the commits are those of the concurrent system. */
module UnapprovedRows {
  import opened Collections
  import opened Tiebreak
  import opened Prize
  import opened Domain
  import opened MesaRules
  import opened Book
  import opened BookRun
  import opened Window
  import opened Wallets
  import opened Settlement
  import opened Competition
  import opened Interleaving
  import opened InterleavingLaws
  import opened Concurrency
  import opened Operations
  import opened OperationsLaws

  /** The user's row is approved. */
  predicate IsApproved(ps: seq<Participant>, u: UserId) {
    var p := Find(ps, u);
    p.Some? && p.value.status == APPROVED
  }

  /** By how much the counter of a Mesa exceeds its approved participants. */
  function Excess(m: Mesa): int {
    m.counters.currentParticipants - ApprovedCount(m.participants)
  }

  // ---- a transaction in flight, whatever the rows ----

  ghost predicate WalletHeld(db: Db, j: Transaction) {
    && (j.wallet.Some? <==> Done(j, PayEntry) && j.seen.Some? && HasPaidEntry(j.seen.value.terms))
    && (j.wallet.Some? ==>
      && j.request.userId in db.wallets
      && Debited(db.wallets[j.request.userId], AccessCost(j.seen.value.terms), Some(EntryKey(j.request.mesa)))
        == j.wallet)
  }

  /** Its version of the row counts one more than the committed one as soon as it has counted. */
  ghost predicate SeatHeld(db: Db, j: Transaction) {
    && (j.row.Some? ==>
      && j.request.mesa in db.mesas
      && var m := db.mesas[j.request.mesa];
        j.row.value.counters.currentParticipants
          == m.counters.currentParticipants + if SeatCounted(j, m.terms) then 1 else 0)
    && (j.seen.Some? && SeatCounted(j, j.seen.value.terms) ==> j.row.Some?)
  }

  /** It is about a published Mesa: published by itself, or before it looked. */
  ghost predicate PublishedFor(db: Db, j: Transaction) {
    && (j.request.publication && Done(j, Publish) ==> j.row.Some?)
    && (j.row.Some? ==> j.row.value.status != MesaStatus.DRAFT && (j.request.publication || j.seen.Some?))
    && (j.seen.Some? && !j.request.publication && j.request.mesa in db.mesas ==>
      db.mesas[j.request.mesa].status != MesaStatus.DRAFT)
  }

  ghost predicate InFlight(db: Db, j: Transaction) {
    && (Done(j, ReadMesa) <==> j.seen.Some?)
    && (j.seen.Some? ==> j.request.mesa in db.mesas && j.seen.value.terms == db.mesas[j.request.mesa].terms)
    && WalletHeld(db, j) && SeatHeld(db, j) && PublishedFor(db, j)
    && (j.participant.Some? <==> Done(j, Enroll))
    && (j.participant.Some? ==>
      j.participant.value.userId == j.request.userId && j.participant.value.status == APPROVED)
  }

  lemma {:induction false} ReadingKeeps(db: Db, j: Transaction, activePro: bool, next: Transaction)
    requires InFlight(db, j) && Execute(db, j, activePro) == Ok(next) && Place(j.next) <= Place(ReadParticipant)
    ensures InFlight(db, next)
  {}

  lemma {:induction false} PayingKeeps(db: Db, j: Transaction, activePro: bool, next: Transaction)
    requires InFlight(db, j) && Execute(db, j, activePro) == Ok(next) && j.next == PayEntry
    ensures InFlight(db, next)
  {}

  lemma {:induction false} SeatingKeeps(db: Db, j: Transaction, activePro: bool, next: Transaction)
    requires InFlight(db, j) && Execute(db, j, activePro) == Ok(next)
    requires j.next == TakeSeat || j.next == CloseRegistration
    ensures InFlight(db, next)
  {}

  lemma {:induction false} EnrollingKeeps(db: Db, j: Transaction, activePro: bool, next: Transaction)
    requires InFlight(db, j) && Execute(db, j, activePro) == Ok(next) && Place(j.next) >= Place(Enroll)
    ensures InFlight(db, next)
  {}

  lemma {:induction false} StatementKeeps(db: Db, j: Transaction, activePro: bool, next: Transaction)
    requires InFlight(db, j) && Execute(db, j, activePro) == Ok(next)
    ensures InFlight(db, next)
  {
    if Place(j.next) <= Place(ReadParticipant) {
      ReadingKeeps(db, j, activePro, next);
    } else if j.next == PayEntry {
      PayingKeeps(db, j, activePro, next);
    } else if Place(j.next) <= Place(CloseRegistration) {
      SeatingKeeps(db, j, activePro, next);
    } else {
      EnrollingKeeps(db, j, activePro, next);
    }
  }

  /** Once published, a Mesa keeps its terms and stays published. */
  predicate SameTerms(m: Mesa, after: Mesa) {
    m.status != MesaStatus.DRAFT ==> after.terms == m.terms && after.status != MesaStatus.DRAFT
  }

  ghost predicate KeepsTerms(db: Db, after: Db) {
    forall id :: id in db.mesas ==> id in after.mesas && SameTerms(db.mesas[id], after.mesas[id])
  }

  lemma {:induction false} UndisturbedFlies(db: Db, after: Db, j: Transaction)
    requires InFlight(db, j) && Undisturbed(db, after, j) && KeepsTerms(db, after)
    ensures InFlight(after, j)
  {}

  // ---- a commit ----

  lemma {:induction false} ReplacedApproved(ps: seq<Participant>, i: nat, p: Participant)
    requires i < |ps| && p.status == APPROVED
    ensures ApprovedCount(ps[i := p]) == ApprovedCount(ps) + if ps[i].status == APPROVED then 0 else 1
  {
    var init, last := ps[..|ps| - 1], |ps| - 1;
    if i < last {
      ReplacedApproved(init, i, p);
      assert ps[i := p][..last] == init[i := p];
    } else {
      assert ps[i := p][..last] == init;
    }
  }

  lemma {:induction false} ReplacedRow(ps: seq<Participant>, i: nat, p: Participant)
    requires IndexOf(ps, p.userId) == Some(i)
    ensures IndexOf(ps[i := p], p.userId) == Some(i)
  {
    var last := |ps| - 1;
    if i < last {
      assert ps[i := p][..last] == ps[..last][i := p];
      ReplacedRow(ps[..last], i, p);
    }
  }

  lemma {:induction false} UpsertedApproved(ps: seq<Participant>, p: Participant)
    requires p.status == APPROVED
    ensures ApprovedCount(Upsert(ps, p)) == ApprovedCount(ps) + if IsApproved(ps, p.userId) then 0 else 1
    ensures IsApproved(Upsert(ps, p), p.userId)
  {
    var i := IndexOf(ps, p.userId);
    if i.Some? {
      ReplacedApproved(ps, i.value, p);
      ReplacedRow(ps, i.value, p);
    } else {
      assert (ps + [p])[..|ps|] == ps;
    }
  }

  /** A commit keeps the count of its Mesa as right or wrong as it was exactly when its user was
      not approved yet; otherwise it counts a seat too many. */
  lemma {:induction false} CommitCounts(db: Db, j: Transaction)
    requires InFlight(db, j) && j.next == Commit
    ensures j.request.mesa in db.mesas && j.request.mesa in Committed(db, j).mesas
    ensures var (m, after) := (db.mesas[j.request.mesa], Committed(db, j).mesas[j.request.mesa]);
      && after.counters.currentParticipants == m.counters.currentParticipants + 1
      && ApprovedCount(after.participants)
        == ApprovedCount(m.participants) + (if IsApproved(m.participants, j.request.userId) then 0 else 1)
      && IsApproved(after.participants, j.request.userId)
      && after.terms == m.terms && after.status != MesaStatus.DRAFT
  {
    UpsertedApproved(db.mesas[j.request.mesa].participants, j.participant.value);
  }

  // ---- the other changes leave the counts alone ----

  lemma {:induction false} SameStatuses(ps: seq<Participant>, qs: seq<Participant>)
    requires |ps| == |qs| && forall i :: 0 <= i < |ps| ==> ps[i].status == qs[i].status
    ensures ApprovedCount(qs) == ApprovedCount(ps)
  {
    if ps != [] {
      SameStatuses(ps[..|ps| - 1], qs[..|qs| - 1]);
    }
  }

  /** The Mesa has the same terms, unless it is a draft, and the same users with the same status. */
  ghost predicate SameSeats(m: Mesa, after: Mesa) {
    && SameTerms(m, after) && after.counters.currentParticipants == m.counters.currentParticipants
    && |after.participants| == |m.participants|
    && forall i :: 0 <= i < |m.participants| ==>
      && after.participants[i].userId == m.participants[i].userId
      && after.participants[i].status == m.participants[i].status
  }

  ghost predicate AllSameSeats(mesas: map<MesaId, Mesa>, after: map<MesaId, Mesa>) {
    forall id :: id in mesas ==> id in after && SameSeats(mesas[id], after[id])
  }

  lemma {:induction false} StageKeepsSeats(b: Book, m: Mesa, stage: Stage, now: Time)
    requires StageAllowed(m, stage)
    ensures SameSeats(m, AtStage(b, m, stage, now))
  {}

  lemma {:induction false} ClosingKeepsSeats(db: Db, c: Closer, activePro: set<UserId>, closing: Closing)
    requires CloseSeen(db, c, activePro) == Ok(closing)
    ensures c.mesa in db.mesas && SameSeats(db.mesas[c.mesa], closing.mesa)
  {}

  lemma {:induction false} OneKeepsSeats(mesas: map<MesaId, Mesa>, k: MesaId, m: Mesa)
    requires k in mesas ==> SameSeats(mesas[k], m)
    ensures AllSameSeats(mesas, mesas[k := m])
  {}

  lemma {:induction false} EventKeepsSeats(db: Db, e: Event)
    requires !e.JoinCommitted? && !e.MesaClosed? && Enabled(db, e)
    ensures AllSameSeats(db.mesas, Apply(db, e).mesas)
  {
    if e.StageReached? {
      StageKeepsSeats(db.book, db.mesas[e.mesa], e.stage, db.now);
      OneKeepsSeats(db.mesas, e.mesa, AtStage(db.book, db.mesas[e.mesa], e.stage, db.now));
    }
  }

  lemma {:induction false} SameSeatsSameExcess(m: Mesa, after: Mesa)
    requires SameSeats(m, after)
    ensures Excess(after) == Excess(m)
    ensures forall u :: IsApproved(after.participants, u) <==> IsApproved(m.participants, u)
  {
    SameStatuses(m.participants, after.participants);
    forall u | true ensures IsApproved(after.participants, u) <==> IsApproved(m.participants, u) {
      SameRow(m.participants, after.participants, u);
    }
  }

  lemma {:induction false} SameRow(ps: seq<Participant>, qs: seq<Participant>, u: UserId)
    requires |ps| == |qs|
    requires forall i :: 0 <= i < |ps| ==> ps[i].userId == qs[i].userId && ps[i].status == qs[i].status
    ensures IndexOf(ps, u) == IndexOf(qs, u)
  {
    if ps != [] && ps[|ps| - 1].userId != u {
      SameRow(ps[..|ps| - 1], qs[..|qs| - 1], u);
    }
  }

  // ---- runs ----

  ghost predicate AllInFlight(w: World) {
    && (forall tx :: tx in w.joins ==> InFlight(w.db, w.joins[tx]))
    && (forall k, l :: k in w.joins && l in w.joins && k != l ==> !Conflict(w.joins[k], w.joins[l]))
  }

  /** The action commits a join, to the Mesa, of a user who is approved in it already. */
  ghost predicate CountsTwice(w: World, a: Action, id: MesaId) {
    && a.JoinEnded? && a.tx in w.joins && w.joins[a.tx].request.mesa == id && id in w.db.mesas
    && IsApproved(w.db.mesas[id].participants, w.joins[a.tx].request.userId)
  }

  lemma {:induction false} CommitLeavesOthers(db: Db, j: Transaction, other: Transaction)
    requires InFlight(db, j) && j.next == Commit && InFlight(db, other) && !Conflict(j, other)
    ensures InFlight(Committed(db, j), other)
  {}

  lemma {:induction false} CommitFlies(w: World, tx: TxId)
    requires AllInFlight(w) && Possible(w, JoinEnded(tx))
    ensures AllInFlight(After(w, JoinEnded(tx)))
  {
    forall k | k in w.joins && k != tx ensures InFlight(Committed(w.db, w.joins[tx]), w.joins[k]) {
      CommitLeavesOthers(w.db, w.joins[tx], w.joins[k]);
    }
  }

  lemma {:induction false} ChangeFlies(w: World, after: Db, closers: map<TxId, Closer>)
    requires AllInFlight(w) && Unlocked(w, after) && AllSameSeats(w.db.mesas, after.mesas)
    ensures AllInFlight(World(after, w.joins, closers))
  {
    forall tx | tx in w.joins ensures InFlight(after, w.joins[tx]) {
      UndisturbedFlies(w.db, after, w.joins[tx]);
    }
  }

  lemma {:induction false} ActionFlies(w: World, a: Action)
    requires AllInFlight(w) && Possible(w, a)
    ensures AllInFlight(After(w, a))
  {
    match a {
      case Executed(tx, activePro) =>
        StatementKeeps(w.db, w.joins[tx], activePro, Execute(w.db, w.joins[tx], activePro).value);
      case JoinEnded(tx) => CommitFlies(w, tx);
      case ClosingEnded(tx, subscribers) =>
        var closing := CloseSeen(w.db, w.closers[tx], subscribers).value;
        ClosingKeepsSeats(w.db, w.closers[tx], subscribers, closing);
        OneKeepsSeats(w.db.mesas, w.closers[tx].mesa, closing.mesa);
        ChangeFlies(w, After(w, a).db, After(w, a).closers);
      case Happened(e) =>
        EventKeepsSeats(w.db, e);
        ChangeFlies(w, Apply(w.db, e), w.closers);
      case _ =>
    }
  }

  lemma {:induction false} CommitExcess(w: World, tx: TxId, id: MesaId)
    requires AllInFlight(w) && Possible(w, JoinEnded(tx)) && id in w.db.mesas
    ensures id in After(w, JoinEnded(tx)).db.mesas
    ensures Excess(After(w, JoinEnded(tx)).db.mesas[id])
      == Excess(w.db.mesas[id]) + if CountsTwice(w, JoinEnded(tx), id) then 1 else 0
  {
    CommitCounts(w.db, w.joins[tx]);
  }

  lemma {:induction false} ActionExcess(w: World, a: Action, id: MesaId)
    requires AllInFlight(w) && Possible(w, a) && id in w.db.mesas
    ensures id in After(w, a).db.mesas
    ensures Excess(After(w, a).db.mesas[id]) == Excess(w.db.mesas[id]) + if CountsTwice(w, a, id) then 1 else 0
  {
    match a {
      case JoinEnded(tx) => CommitExcess(w, tx, id);
      case ClosingEnded(tx, subscribers) =>
        var closing := CloseSeen(w.db, w.closers[tx], subscribers).value;
        ClosingKeepsSeats(w.db, w.closers[tx], subscribers, closing);
        OneKeepsSeats(w.db.mesas, w.closers[tx].mesa, closing.mesa);
        SameSeatsSameExcess(w.db.mesas[id], After(w, a).db.mesas[id]);
      case Happened(e) =>
        EventKeepsSeats(w.db, e);
        SameSeatsSameExcess(w.db.mesas[id], Apply(w.db, e).mesas[id]);
      case _ =>
    }
  }

  /** How many joins of a run were committed for users who were approved already. */
  ghost function CountedTwice(w: World, actions: seq<Action>, final: World, id: MesaId): nat
    requires RunsTo(w, actions, final)
    decreases |actions|
  {
    if actions == [] then 0
    else
      (if CountsTwice(w, actions[0], id) then 1 else 0) + CountedTwice(After(w, actions[0]), actions[1..], final, id)
  }

  /** Over every run, whatever rows it starts from: the counter of a Mesa drifts from its approved
      participants by exactly the joins committed for users who were approved already. */
  lemma {:induction false} CountDriftsExactly(w: World, actions: seq<Action>, final: World, id: MesaId)
    requires AllInFlight(w) && RunsTo(w, actions, final) && id in w.db.mesas
    ensures id in final.db.mesas
    ensures Excess(final.db.mesas[id]) == Excess(w.db.mesas[id]) + CountedTwice(w, actions, final, id)
    decreases |actions|
  {
    if actions != [] {
      ActionFlies(w, actions[0]);
      ActionExcess(w, actions[0], id);
      CountDriftsExactly(After(w, actions[0]), actions[1..], final, id);
    }
  }

  // ---- paid entries ----

  /** The Mesa is published, and the user has been debited for a paid entry. */
  predicate EntryRecorded(db: Db, id: MesaId, u: UserId)
    requires id in db.mesas
  {
    && db.mesas[id].status != MesaStatus.DRAFT
    && (HasPaidEntry(db.mesas[id].terms) ==> KeyCount(WalletOf(db.wallets, u).ledger, EntryKey(id)) > 0)
  }

  /** Nobody is approved in a draft, and whoever is approved in a paid Mesa has been debited for it. */
  ghost predicate EntriesRecorded(db: Db) {
    forall id, u :: id in db.mesas && IsApproved(db.mesas[id].participants, u) ==> EntryRecorded(db, id, u)
  }

  /** No entry has been taken out of a ledger. */
  ghost predicate KeepsEntries(wallets: map<UserId, Wallet>, after: map<UserId, Wallet>) {
    forall u, id ::
      KeyCount(WalletOf(after, u).ledger, EntryKey(id)) >= KeyCount(WalletOf(wallets, u).ledger, EntryKey(id))
  }

  lemma {:induction false} OneKeepsEntries(wallets: map<UserId, Wallet>, u: UserId, e: LedgerEntry)
    ensures KeepsEntries(wallets, wallets[u := Append(WalletOf(wallets, u), e)])
  {
    forall id | true
      ensures KeyCount(Append(WalletOf(wallets, u), e).ledger, EntryKey(id))
        >= KeyCount(WalletOf(wallets, u).ledger, EntryKey(id))
    {
      AppendCounts(WalletOf(wallets, u), e, EntryKey(id));
    }
  }

  lemma {:induction false} CreditsKeepEntries(wallets: map<UserId, Wallet>, id: MesaId, payouts: seq<Payout>)
    requires CreditAll(wallets, id, payouts).Some?
    ensures KeepsEntries(wallets, CreditAll(wallets, id, payouts).value)
  {
    if payouts != [] {
      var init, last := payouts[..|payouts| - 1], payouts[|payouts| - 1];
      CreditsKeepEntries(wallets, id, init);
      OneKeepsEntries(CreditAll(wallets, id, init).value, last.userId,
        LedgerEntry(CREDIT, last.amount, Some(PayoutKey(id))));
    }
  }

  /** New Mesas have no participants. */
  ghost predicate NewAreEmpty(mesas: map<MesaId, Mesa>, after: map<MesaId, Mesa>) {
    forall id :: id in after && id !in mesas ==> after[id].participants == []
  }

  lemma {:induction false} WasApproved(mesas: map<MesaId, Mesa>, after: map<MesaId, Mesa>, id: MesaId, u: UserId)
    requires AllSameSeats(mesas, after) && NewAreEmpty(mesas, after)
    requires id in after && IsApproved(after[id].participants, u)
    ensures id in mesas && IsApproved(mesas[id].participants, u) && SameTerms(mesas[id], after[id])
  {
    if id in mesas {
      SameSeatsSameExcess(mesas[id], after[id]);
    }
  }

  lemma {:induction false} ChangeRecords(db: Db, after: Db)
    requires EntriesRecorded(db) && KeepsEntries(db.wallets, after.wallets)
    requires AllSameSeats(db.mesas, after.mesas) && NewAreEmpty(db.mesas, after.mesas)
    ensures EntriesRecorded(after)
  {
    forall id, u | id in after.mesas && IsApproved(after.mesas[id].participants, u)
      ensures EntryRecorded(after, id, u)
    {
      WasApproved(db.mesas, after.mesas, id, u);
      assert EntryRecorded(db, id, u);
    }
  }

  /** A transaction that has paid holds a wallet without the entry: its user is not approved. */
  lemma {:induction false} PaidIsNotApproved(db: Db, j: Transaction)
    requires InFlight(db, j) && EntriesRecorded(db) && Done(j, PayEntry)
    requires HasPaidEntry(db.mesas[j.request.mesa].terms)
    ensures !IsApproved(db.mesas[j.request.mesa].participants, j.request.userId)
  {
    var (id, u) := (j.request.mesa, j.request.userId);
    assert IsApproved(db.mesas[id].participants, u) ==> EntryRecorded(db, id, u);
    assert j.wallet.Some?;
    assert KeyCount(WalletOf(db.wallets, u).ledger, EntryKey(id)) == 0;
  }

  lemma {:induction false} UpsertedUsers(ps: seq<Participant>, p: Participant, u: UserId)
    requires u != p.userId
    ensures IsApproved(Upsert(ps, p), u) <==> IsApproved(ps, u)
  {
    var i := IndexOf(ps, p.userId);
    if i.Some? {
      OtherRowStays(ps, i.value, p, u);
    } else {
      assert (ps + [p])[..|ps|] == ps;
    }
  }

  lemma {:induction false} OtherRowStays(ps: seq<Participant>, i: nat, p: Participant, u: UserId)
    requires i < |ps| && ps[i].userId == p.userId != u
    ensures IndexOf(ps[i := p], u) == IndexOf(ps, u)
  {
    var last := |ps| - 1;
    if i < last {
      assert ps[i := p][..last] == ps[..last][i := p];
      if ps[last].userId != u {
        OtherRowStays(ps[..last], i, p, u);
      }
    } else {
      assert ps[i := p][..last] == ps[..last];
    }
  }

  lemma {:induction false} CommitKeepsEntries(db: Db, j: Transaction)
    requires InFlight(db, j) && j.next == Commit
    ensures KeepsEntries(db.wallets, Committed(db, j).wallets)
    ensures HasPaidEntry(db.mesas[j.request.mesa].terms) ==>
      KeyCount(WalletOf(Committed(db, j).wallets, j.request.userId).ledger, EntryKey(j.request.mesa)) > 0
  {
    if j.wallet.Some? {
      var u, id := j.request.userId, j.request.mesa;
      var entry := j.wallet.value.ledger[|db.wallets[u].ledger|];
      OneKeepsEntries(db.wallets, u, entry);
      AppendCounts(db.wallets[u], entry, EntryKey(id));
    }
  }

  lemma {:induction false} CommitApproves(db: Db, j: Transaction, id: MesaId, u: UserId)
    requires InFlight(db, j) && j.next == Commit
    requires id in Committed(db, j).mesas && IsApproved(Committed(db, j).mesas[id].participants, u)
    ensures id in db.mesas
    ensures (id == j.request.mesa && u == j.request.userId) || IsApproved(db.mesas[id].participants, u)
  {
    if id == j.request.mesa && u != j.request.userId {
      UpsertedUsers(db.mesas[id].participants, j.participant.value, u);
    }
  }

  lemma {:induction false} StaysRecorded(db: Db, after: Db, id: MesaId, u: UserId)
    requires id in db.mesas && id in after.mesas && SameTerms(db.mesas[id], after.mesas[id])
    requires EntryRecorded(db, id, u) && KeepsEntries(db.wallets, after.wallets)
    ensures EntryRecorded(after, id, u)
  {}

  lemma {:induction false} CommitKeepsTerms(db: Db, j: Transaction, id: MesaId)
    requires InFlight(db, j) && j.next == Commit && id in db.mesas
    ensures id in Committed(db, j).mesas && SameTerms(db.mesas[id], Committed(db, j).mesas[id])
  {
    CommitCounts(db, j);
  }

  lemma {:induction false} CommitRecordsItself(db: Db, j: Transaction)
    requires InFlight(db, j) && j.next == Commit
    ensures j.request.mesa in Committed(db, j).mesas
    ensures EntryRecorded(Committed(db, j), j.request.mesa, j.request.userId)
  {
    CommitCounts(db, j);
    CommitKeepsEntries(db, j);
  }

  lemma {:induction false} CommitRecords(db: Db, j: Transaction)
    requires InFlight(db, j) && j.next == Commit && EntriesRecorded(db)
    ensures EntriesRecorded(Committed(db, j))
  {
    var after := Committed(db, j);
    CommitRecordsItself(db, j);
    CommitKeepsEntries(db, j);
    forall id, u | id in after.mesas && IsApproved(after.mesas[id].participants, u)
      ensures EntryRecorded(after, id, u)
    {
      CommitApproves(db, j, id, u);
      if !(id == j.request.mesa && u == j.request.userId) {
        CommitKeepsTerms(db, j, id);
        StaysRecorded(db, after, id, u);
      }
    }
  }

  lemma {:induction false} ClosingRecords(db: Db, c: Closer, activePro: set<UserId>, closing: Closing)
    requires EntriesRecorded(db) && CloseSeen(db, c, activePro) == Ok(closing)
    ensures EntriesRecorded(AfterClosing(db, c.mesa, closing))
  {
    ClosingKeepsSeats(db, c, activePro, closing);
    ClosingCredits(db, c, activePro, closing);
    OneKeepsSeats(db.mesas, c.mesa, closing.mesa);
    ChangeRecords(db, AfterClosing(db, c.mesa, closing));
  }

  lemma {:induction false} ClosingCredits(db: Db, c: Closer, activePro: set<UserId>, closing: Closing)
    requires CloseSeen(db, c, activePro) == Ok(closing)
    ensures KeepsEntries(db.wallets, closing.wallets)
  {
    var (m, seen) := (db.mesas[c.mesa], c.seen);
    var rows := BuildRows(db.book, seen.terms, seen.milestones, seen.milestones.endDate, Approved(m.participants),
      db.now);
    CreditsKeepEntries(db.wallets, c.mesa,
      SettlementOf(seen.terms, seen.counters.grossCollected, rows, activePro).eligible);
  }

  lemma {:induction false} EventRecords(db: Db, e: Event)
    requires EntriesRecorded(db) && !e.JoinCommitted? && !e.MesaClosed? && Enabled(db, e)
    ensures EntriesRecorded(Apply(db, e))
  {
    EventKeepsSeats(db, e);
    if e.WalletMoved? {
      OneKeepsEntries(db.wallets, e.userId, e.movement);
    }
    ChangeRecords(db, Apply(db, e));
  }

  lemma {:induction false} ActionRecords(w: World, a: Action)
    requires AllInFlight(w) && Possible(w, a) && EntriesRecorded(w.db)
    ensures EntriesRecorded(After(w, a).db)
  {
    match a {
      case JoinEnded(tx) => CommitRecords(w.db, w.joins[tx]);
      case ClosingEnded(tx, subscribers) =>
        ClosingRecords(w.db, w.closers[tx], subscribers, CloseSeen(w.db, w.closers[tx], subscribers).value);
      case Happened(e) => EventRecords(w.db, e);
      case _ =>
    }
  }

  lemma {:induction false} PaidCountsOnce(w: World, a: Action, id: MesaId)
    requires AllInFlight(w) && Possible(w, a) && EntriesRecorded(w.db)
    requires id in w.db.mesas && (w.db.mesas[id].status != MesaStatus.DRAFT ==> HasPaidEntry(w.db.mesas[id].terms))
    ensures !CountsTwice(w, a, id)
  {
    if a.JoinEnded? && w.joins[a.tx].request.mesa == id {
      if w.db.mesas[id].status != MesaStatus.DRAFT {
        PaidIsNotApproved(w.db, w.joins[a.tx]);
      } else {
        var u := w.joins[a.tx].request.userId;
        assert IsApproved(w.db.mesas[id].participants, u) ==> EntryRecorded(w.db, id, u);
      }
    }
  }

  lemma {:induction false} ActionKeepsTerms(w: World, a: Action, id: MesaId)
    requires AllInFlight(w) && Possible(w, a) && id in w.db.mesas
    ensures id in After(w, a).db.mesas && SameTerms(w.db.mesas[id], After(w, a).db.mesas[id])
  {
    match a {
      case JoinEnded(tx) => CommitCounts(w.db, w.joins[tx]);
      case ClosingEnded(tx, subscribers) =>
        var closing := CloseSeen(w.db, w.closers[tx], subscribers).value;
        ClosingKeepsSeats(w.db, w.closers[tx], subscribers, closing);
      case Happened(e) => EventKeepsSeats(w.db, e);
      case _ =>
    }
  }

  /** The terms of a Mesa are those it was published with. */
  lemma {:induction false} RunKeepsTerms(w: World, actions: seq<Action>, final: World, id: MesaId)
    requires AllInFlight(w) && RunsTo(w, actions, final) && id in w.db.mesas
    ensures id in final.db.mesas && SameTerms(w.db.mesas[id], final.db.mesas[id])
    decreases |actions|
  {
    if actions != [] {
      ActionFlies(w, actions[0]);
      ActionKeepsTerms(w, actions[0], id);
      RunKeepsTerms(After(w, actions[0]), actions[1..], final, id);
    }
  }

  /** On a Mesa that is paid in the end the key of the entry lets nobody be counted twice: over
      every run the counter stays exactly as right as it was, whatever unapproved rows there are. */
  lemma {:induction false} PaidNeverDrifts(w: World, actions: seq<Action>, final: World, id: MesaId)
    requires AllInFlight(w) && EntriesRecorded(w.db) && RunsTo(w, actions, final)
    requires id in w.db.mesas && id in final.db.mesas && HasPaidEntry(final.db.mesas[id].terms)
    ensures Excess(final.db.mesas[id]) == Excess(w.db.mesas[id])
    decreases |actions|
  {
    if actions != [] {
      RunKeepsTerms(w, actions, final, id);
      ActionFlies(w, actions[0]);
      ActionRecords(w, actions[0]);
      ActionExcess(w, actions[0], id);
      PaidCountsOnce(w, actions[0], id);
      PaidNeverDrifts(After(w, actions[0]), actions[1..], final, id);
    }
  }

  // ---- two joins of one user ----

  lemma {:induction false} RunsOn(a: World, x: seq<Action>, b: World, y: seq<Action>, c: World)
    requires RunsTo(a, x, b) && RunsTo(b, y, c)
    ensures RunsTo(a, x + y, c)
    decreases |x|
  {
    if x == [] {
      assert x + y == y;
    } else {
      RunsOn(After(a, x[0]), x[1..], b, y, c);
      assert (x + y)[1..] == x[1..] + y;
    }
  }

  lemma {:induction false} RunsOne(w: World, a: Action)
    requires Possible(w, a)
    ensures RunsTo(w, [a], After(w, a))
  {
    assert [a][1..] == [];
  }

  /** The transaction has written nothing yet. */
  predicate Idle(j: Transaction) {
    j.invite.None? && j.wallet.None? && j.row.None? && j.participant.None? && j.open.None?
  }

  function Executions(tx: TxId, activePro: bool, count: nat): seq<Action> {
    if count == 0 then [] else Executions(tx, activePro, count - 1) + [Executed(tx, activePro)]
  }

  /** A transaction whose companions are idle executes its statements one after the other. */
  lemma {:induction false} ExecutesAlone(w: World, tx: TxId, activePro: bool, count: nat, j: Transaction)
    requires tx in w.joins && RunAlone(w.db, w.joins[tx], activePro, count) == Ok(j)
    requires forall k :: k in w.joins && k != tx ==> Idle(w.joins[k])
    ensures RunsTo(w, Executions(tx, activePro, count), w.(joins := w.joins[tx := j]))
  {
    if count == 0 {
      assert w.joins[tx := j] == w.joins;
    } else {
      var before := RunAlone(w.db, w.joins[tx], activePro, count - 1).value;
      ExecutesAlone(w, tx, activePro, count - 1, before);
      var mid := w.(joins := w.joins[tx := before]);
      RunsOne(mid, Executed(tx, activePro));
      assert mid.joins[tx := j] == w.joins[tx := j];
      RunsOn(w, Executions(tx, activePro, count - 1), mid, [Executed(tx, activePro)], w.(joins := w.joins[tx := j]));
    }
  }

  lemma {:induction false} AloneFlies(db: Db, j: Transaction, activePro: bool, count: nat, next: Transaction)
    requires InFlight(db, j) && RunAlone(db, j, activePro, count) == Ok(next)
    ensures InFlight(db, next)
  {
    if count > 0 {
      var before := RunAlone(db, j, activePro, count - 1).value;
      AloneFlies(db, j, activePro, count - 1, before);
      StatementKeeps(db, before, activePro, next);
    }
  }

  /** There is a seat, and it is not the last one. */
  predicate SeatToSpare(m: Mesa, seats: nat) {
    ByCapacity(m.terms) ==>
      m.terms.maxParticipants.Some? && m.counters.currentParticipants + seats < m.terms.maxParticipants.value
  }

  /** From the unpaid entry on, nothing stops a transaction that has found an older row. */
  lemma {:induction false} GoesOn(db: Db, j: Transaction, activePro: bool) returns (next: Transaction)
    requires InFlight(db, j) && Idle(j) && j.next == PayEntry && j.existing.Some?
    requires !HasPaidEntry(j.seen.value.terms) && SeatToSpare(db.mesas[j.request.mesa], 1)
    ensures RunAlone(db, j, activePro, 6) == Ok(next)
    ensures next.next == Commit && next.request == j.request
  {
    assert RunAlone(db, j, activePro, 0) == Ok(j);
    var j1 := Execute(db, j, activePro).value;
    assert RunAlone(db, j, activePro, 1) == Ok(j1);
    var j2 := Execute(db, j1, activePro).value;
    assert RunAlone(db, j, activePro, 2) == Ok(j2);
    var j3 := Execute(db, j2, activePro).value;
    assert RunAlone(db, j, activePro, 3) == Ok(j3);
    var j4 := Execute(db, j3, activePro).value;
    assert RunAlone(db, j, activePro, 4) == Ok(j4);
    var j5 := Execute(db, j4, activePro).value;
    assert RunAlone(db, j, activePro, 5) == Ok(j5);
    next := Execute(db, j5, activePro).value;
  }

  /** The transaction has looked at the Mesa, found the row of its user, and written nothing yet. */
  ghost predicate Looked(w: World, tx: TxId, r: Request) {
    && tx in w.joins && InFlight(w.db, w.joins[tx])
    && var j := w.joins[tx];
      j.request == r && j.next == PayEntry && Idle(j) && j.existing.Some?
  }

  lemma {:induction false} Looks(w: World, tx: TxId, r: Request, activePro: bool, j: Transaction)
      returns (actions: seq<Action>)
    requires tx !in w.joins && RunAlone(w.db, NewJoin(r), activePro, 4) == Ok(j)
    requires forall k :: k in w.joins ==> Idle(w.joins[k])
    ensures RunsTo(w, actions, w.(joins := w.joins[tx := j]))
  {
    var began := w.(joins := w.joins[tx := NewJoin(r)]);
    RunsOne(w, Began(tx, r));
    ExecutesAlone(began, tx, activePro, 4, j);
    assert began.joins[tx := j] == w.joins[tx := j];
    actions := [Began(tx, r)] + Executions(tx, activePro, 4);
    RunsOn(w, [Began(tx, r)], began, Executions(tx, activePro, 4), w.(joins := w.joins[tx := j]));
  }

  lemma {:induction false} BothLook(db: Db, r: Request, activePro: bool) returns (both: World, actions: seq<Action>)
    requires r.invite.None? && !r.publication && JoinWhole(db, r, activePro).Ok? && r.mesa in db.mesas
    requires Find(db.mesas[r.mesa].participants, r.userId).Some?
    ensures RunsTo(World(db, map[], map[]), actions, both)
    ensures both.db == db && both.joins.Keys == {1, 2} && Looked(both, 1, r) && Looked(both, 2, r)
  {
    var j := Starts(db, r, activePro);
    AloneFlies(db, NewJoin(r), activePro, 4, j);
    var start, one := World(db, map[], map[]), World(db, map[1 := j], map[]);
    var first := Looks(start, 1, r, activePro, j);
    var second := Looks(one, 2, r, activePro, j);
    assert map[][1 := j] == map[1 := j];
    both := World(db, map[1 := j][2 := j], map[]);
    RunsOn(start, first, one, second, both);
    actions := first + second;
  }

  /** One of two transactions that have looked goes on and commits; the other is as it was. */
  lemma {:induction false} OneCommits(w: World, r: Request, activePro: bool, tx: TxId)
    returns (next: World, actions: seq<Action>)
    requires Looked(w, tx, r) && forall k :: k in w.joins ==> Looked(w, k, r)
    requires r.mesa in w.db.mesas && !HasPaidEntry(w.db.mesas[r.mesa].terms) && SeatToSpare(w.db.mesas[r.mesa], 1)
    ensures RunsTo(w, actions, next) && next.joins.Keys == w.joins.Keys - {tx}
    ensures forall k :: k in next.joins ==> Looked(next, k, r)
    ensures r.mesa in next.db.mesas
    ensures var (m, after) := (w.db.mesas[r.mesa], next.db.mesas[r.mesa]);
      && after.counters.currentParticipants == m.counters.currentParticipants + 1
      && ApprovedCount(after.participants)
        == ApprovedCount(m.participants) + (if IsApproved(m.participants, r.userId) then 0 else 1)
      && IsApproved(after.participants, r.userId) && after.terms == m.terms
  {
    var j := GoesOn(w.db, w.joins[tx], activePro);
    AloneFlies(w.db, w.joins[tx], activePro, 6, j);
    var ready := w.(joins := w.joins[tx := j]);
    ExecutesAlone(w, tx, activePro, 6, j);
    RunsOne(ready, JoinEnded(tx));
    next := After(ready, JoinEnded(tx));
    actions := Executions(tx, activePro, 6) + [JoinEnded(tx)];
    RunsOn(w, Executions(tx, activePro, 6), ready, [JoinEnded(tx)], next);
    CommitCounts(w.db, j);
    forall k | k in next.joins ensures Looked(next, k, r) {
      assert Looked(w, k, r);
      CommitLeavesOthers(w.db, j, w.joins[k]);
    }
  }

  /** A user with an older, unapproved row asks twice to join an unpaid Mesa with seats to spare.
      There is a run in which both transactions look before either commits, and then both go
      through: two seats are counted for one approved participant. */
  lemma {:induction false} TwoSeatsForOne(db: Db, r: Request, activePro: bool)
    returns (actions: seq<Action>, final: World)
    requires r.invite.None? && !r.publication && JoinWhole(db, r, activePro).Ok? && r.mesa in db.mesas
    requires !HasPaidEntry(db.mesas[r.mesa].terms) && SeatToSpare(db.mesas[r.mesa], 2)
    requires Find(db.mesas[r.mesa].participants, r.userId).Some?
    ensures RunsTo(World(db, map[], map[]), actions, final) && r.mesa in final.db.mesas
    ensures final.db.mesas[r.mesa].counters.currentParticipants == db.mesas[r.mesa].counters.currentParticipants + 2
    ensures ApprovedCount(final.db.mesas[r.mesa].participants) == ApprovedCount(db.mesas[r.mesa].participants) + 1
  {
    var both, actions1 := BothLook(db, r, activePro);
    var mid, actions2 := OneCommits(both, r, activePro, 1);
    var last, actions3 := OneCommits(mid, r, activePro, 2);
    RunsOn(World(db, map[], map[]), actions1, both, actions2, mid);
    RunsOn(World(db, map[], map[]), actions1 + actions2, mid, actions3, last);
    actions, final := actions1 + actions2 + actions3, last;
  }

  /** Such a database: a free Mesa with one pending row. */
  lemma {:induction false} SuchADatabase(u: UserId) returns (db: Db, r: Request)
    ensures r.invite.None? && !r.publication && JoinWhole(db, r, false).Ok? && r.mesa in db.mesas
    ensures !HasPaidEntry(db.mesas[r.mesa].terms) && SeatToSpare(db.mesas[r.mesa], 2)
    ensures Find(db.mesas[r.mesa].participants, r.userId).Some? && Excess(db.mesas[r.mesa]) == 0
  {
    var terms := Terms(0, true, FREE, Eligibility.ALL, DATE, UNTIL_DATE, None, "Rules", 0, Some(0), 0, Array([]), None,
      Some(1), Some(9));
    var pending := Participant(u, ParticipantStatus.PENDING, None, 0, None, 0, None, 0, None, None);
    var m := Mesa(terms, ACTIVE, None, Counters(0, 0, Pools(0, 0, Some(0))),
      Milestones(None, None, None, None, Some(20)), [pending]);
    assert [pending][..0] == [] && ApprovedCount([pending]) == 0;
    db := Db(5, EMPTY_BOOK, map[], map[1 := m], map[], map[]);
    r := Request(1, u, false, None);
  }
}
