/** Closing a Mesa: the guards, the frozen scores, the payouts and their wallet credits. */
module Settlement {
  import opened Collections
  import opened Tiebreak
  import opened Prize
  import opened PrizeLaws
  import opened Domain
  import opened MesaRules
  import opened MesaIntegrity
  import opened Book
  import opened Window
  import opened Wallets

  datatype CloseError =
    | RankingNotFound | AlreadyClosed | AwaitingCapture | NotExpired | SettlementBlocked(issues: seq<Issue>)
    | InvalidPrizes(error: DistributionError) | PayoutRefused

  /** What the audit log keeps of a settlement. */
  datatype Settlement = Settlement(payouts: seq<Payout>, eligible: seq<Payout>, withheld: seq<Payout>)

  datatype Closing = Closing(mesa: Mesa, wallets: map<UserId, Wallet>, settlement: Option<Settlement>)

  // ---- the guards ----

  /** `end` is the end date as it was read; `force` closes whatever it says. */
  function CloseProblem(m: Mesa, end: Option<Time>, force: bool, now: Time): Option<CloseError> {
    if m.status == MesaStatus.CLOSED then Some(CloseError.AlreadyClosed)
    else if ReferenceLifecycle(m.milestones) && !BarrierMet(m.milestones, Approved(m.participants))
    then Some(AwaitingCapture)
    else if !force && (end.None? || end.value > now) then Some(NotExpired)
    else if m.settledAt.None? && Inspect(m) != [] then Some(SettlementBlocked(Inspect(m)))
    else None
  }

  // ---- freezing ----

  function RowFor(rows: seq<Ranked<Row>>, u: UserId): (found: Option<Ranked<Row>>)
    ensures found.Some? ==> found.value in rows && found.value.row.userId == u
    ensures found.None? ==> forall r :: r in rows ==> r.row.userId != u
  {
    if rows == [] then None
    else if rows[|rows| - 1].row.userId == u then Some(rows[|rows| - 1])
    else RowFor(rows[..|rows| - 1], u)
  }

  /** The columns that the closing writes to the participant of a row. */
  function FrozenAs(p: Participant, r: Ranked<Row>): Participant {
    p.(score := r.row.score, position := Some(r.position),
       tiebreak := Some(StoredTiebreak(r.row.hits, r.row.userCreatedAt)))
  }

  function FrozenRow(p: Participant, rows: seq<Ranked<Row>>): Participant {
    var r := RowFor(rows, p.userId);
    if r.None? then p else FrozenAs(p, r.value)
  }

  function Frozen(ps: seq<Participant>, rows: seq<Ranked<Row>>): (frozen: seq<Participant>)
    ensures |frozen| == |ps|
  {
    seq(|ps|, i requires 0 <= i < |ps| => FrozenRow(ps[i], rows))
  }

  // ---- settling ----

  function Distribution(t: Terms): Result<seq<Item>, DistributionError> {
    if t.category == FREE then Ok([]) else ValidateDistribution(t.prizeDistribution)
  }

  function Filtered(payouts: seq<Payout>, users: set<UserId>, inside: bool): (kept: seq<Payout>)
    ensures forall p :: p in kept ==> p in payouts && (p.userId in users) == inside
  {
    if payouts == [] then []
    else
      var before, last := Filtered(payouts[..|payouts| - 1], users, inside), payouts[|payouts| - 1];
      if (last.userId in users) == inside then before + [last] else before
  }

  /** A sponsored Mesa pays only those who are active PRO when it settles. */
  function Split(t: Terms, payouts: seq<Payout>, activePro: set<UserId>): Settlement {
    if t.category == SPONSORED_FREE
    then Settlement(payouts, Filtered(payouts, activePro, true), Filtered(payouts, activePro, false))
    else Settlement(payouts, payouts, [])
  }

  function WalletOf(wallets: map<UserId, Wallet>, u: UserId): Wallet {
    if u in wallets then wallets[u] else NEW_WALLET
  }

  /** One credit after the other; `None` when the ledger refuses one: a payout of nothing, or one
      that has been made before. */
  function CreditAll(wallets: map<UserId, Wallet>, id: MesaId, payouts: seq<Payout>): Option<map<UserId, Wallet>> {
    if payouts == [] then Some(wallets)
    else
      var before, last := CreditAll(wallets, id, payouts[..|payouts| - 1]), payouts[|payouts| - 1];
      if before.None? then None
      else
        var credited := Credited(WalletOf(before.value, last.userId), last.amount, Some(PayoutKey(id)));
        if credited.None? then None else Some(before.value[last.userId := credited.value])
  }

  function SettledPools(c: Counters, totals: Pool): Counters {
    c.(pools := Pools(totals.platformFee, totals.prizePool, Some(totals.prizePool)))
  }

  /** The payouts of a ranking over what a Mesa has collected, split. */
  function SettlementOf(t: Terms, gross: int, rows: seq<Ranked<Row>>, activePro: set<UserId>): Settlement
    requires Distribution(t).Ok?
  {
    var prizePool := ExpectedTotals(t, gross).prizePool;
    Split(t, Payouts(prizePool, Distribution(t).value, PrizeRows(rows, RowMetrics)), activePro)
  }

  /** `SettleBolaoService.execute` on a Mesa that has not been settled. */
  function Settle(id: MesaId, m: Mesa, rows: seq<Ranked<Row>>, wallets: map<UserId, Wallet>, activePro: set<UserId>,
                  now: Time)
    : Result<Closing, CloseError>
  {
    var distribution, totals := Distribution(m.terms), ExpectedTotals(m.terms, m.counters.grossCollected);
    if distribution.Err? then Err(InvalidPrizes(distribution.error))
    else
      var settlement := SettlementOf(m.terms, m.counters.grossCollected, rows, activePro);
      var credited := CreditAll(wallets, id, settlement.eligible);
      if credited.None? then Err(PayoutRefused)
      else Ok(Closing(m.(settledAt := Some(now), counters := SettledPools(m.counters, totals)),
                      credited.value, Some(settlement)))
  }

  /** `CloseRankingService.execute` on a Mesa. */
  function CloseMesa(b: Book, id: MesaId, m: Mesa, end: Option<Time>, force: bool, wallets: map<UserId, Wallet>,
                     activePro: set<UserId>, now: Time)
    : Result<Closing, CloseError>
  {
    var problem := CloseProblem(m, end, force, now);
    if problem.Some? then Err(problem.value)
    else
      var rows := BuildRows(b, m.terms, m.milestones, end, Approved(m.participants), now);
      var frozen := m.(participants := Frozen(m.participants, rows));
      if m.settledAt.Some? then Ok(Closing(frozen.(status := MesaStatus.CLOSED), wallets, None))
      else
        var settled := Settle(id, frozen, rows, wallets, activePro, now);
        if settled.Err? then settled
        else Ok(settled.value.(mesa := settled.value.mesa.(status := MesaStatus.CLOSED)))
  }

  // ---- the payouts of a settlement ----

  lemma {:induction false} FilteredPays(payouts: seq<Payout>, users: set<UserId>, inside: bool)
    requires payouts != []
    ensures PaidOut(Filtered(payouts, users, inside)) == PaidOut(Filtered(payouts[..|payouts| - 1], users, inside))
      + if (payouts[|payouts| - 1].userId in users) == inside then payouts[|payouts| - 1].amount else 0
  {}

  lemma {:induction false} SplitPaysAll(payouts: seq<Payout>, users: set<UserId>)
    ensures PaidOut(Filtered(payouts, users, true)) + PaidOut(Filtered(payouts, users, false)) == PaidOut(payouts)
  {
    if payouts != [] {
      SplitPaysAll(payouts[..|payouts| - 1], users);
      FilteredPays(payouts, users, true);
      FilteredPays(payouts, users, false);
    }
  }

  ghost predicate DistinctPayees(payouts: seq<Payout>) {
    forall i, j :: 0 <= i < j < |payouts| ==> payouts[i].userId != payouts[j].userId
  }

  lemma {:induction false} FilteredPayeesAreDistinct(payouts: seq<Payout>, users: set<UserId>, inside: bool)
    requires DistinctPayees(payouts)
    ensures DistinctPayees(Filtered(payouts, users, inside))
  {
    if payouts != [] {
      var init := payouts[..|payouts| - 1];
      FilteredPayeesAreDistinct(init, users, inside);
      forall p | p in Filtered(init, users, inside) ensures p.userId != payouts[|payouts| - 1].userId {
        assert p in init;
      }
    }
  }

  /** The users of the rows differ. */
  ghost predicate DistinctRows(rows: seq<Ranked<Row>>) {
    forall i, j :: 0 <= i < j < |rows| ==> rows[i].row.userId != rows[j].row.userId
  }

  lemma {:induction false} AtMostOnce<T>(s: seq<T>, x: T, i: nat, j: nat)
    requires multiset(s)[x] <= 1 && i < j < |s|
    ensures !(s[i] == x && s[j] == x)
  {
    assert s == s[..j] + [s[j]] + s[j + 1..];
    assert s[..j] == s[..i] + [s[i]] + s[i + 1..j];
  }

  lemma {:induction false} DistinctAtMostOnce<T>(s: seq<T>, x: T)
    requires Distinct(s)
    ensures multiset(s)[x] <= 1
  {
    if x in s {
      var k :| 0 <= k < |s| && s[k] == x;
      DistinctWithout(s, k);
    }
  }

  /** Nobody is paid twice. */
  lemma {:induction false} PayeesAreDistinct(pool: int, d: seq<Item>, rows: seq<PrizeRow>)
    requires forall i, j :: 0 <= i < j < |rows| ==> rows[i].userId != rows[j].userId
    ensures DistinctPayees(Payouts(pool, d, rows))
  {
    var payouts, paid := Payouts(pool, d, rows), PaidRows(Weighted(d, rows));
    forall i, j | 0 <= i < j < |payouts| ensures payouts[i].userId != payouts[j].userId {
      WeightedRowsExactly(d, rows, paid[i]);
      WeightedRowsExactly(d, rows, paid[j]);
      assert paid[i] in multiset(paid) && paid[j] in multiset(paid);
      assert paid[i] in rows && paid[j] in rows;
      DistinctAtMostOnce(rows, paid[i]);
      AtMostOnce(paid, paid[i], i, j);
    }
  }
}
