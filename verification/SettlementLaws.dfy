/** What closing a Mesa promises: where the money goes and which scores are frozen. */
module SettlementLaws {
  import opened Collections
  import opened Tiebreak
  import opened Prize
  import opened PrizeLaws
  import opened Payability
  import opened Domain
  import opened MesaRules
  import opened MesaIntegrity
  import opened Book
  import opened BookRun
  import opened Window
  import opened Wallets
  import opened Settlement

  // ---- wallets ----

  ghost function Balances(wallets: map<UserId, Wallet>): map<UserId, int> {
    map u | u in wallets :: wallets[u].balance
  }

  lemma {:induction false} WalletChanges(wallets: map<UserId, Wallet>, u: UserId, w: Wallet)
    ensures Total(Balances(wallets[u := w])) == Total(Balances(wallets)) + w.balance - WalletOf(wallets, u).balance
  {
    TotalUpdate(Balances(wallets), u, w.balance);
    assert Balances(wallets[u := w]) == Balances(wallets)[u := w.balance];
  }

  ghost predicate WalletsOk(wallets: map<UserId, Wallet>) {
    forall u :: u in wallets ==> WalletOk(wallets[u])
  }

  ghost predicate Unpaid(wallets: map<UserId, Wallet>, id: MesaId, u: UserId) {
    KeyCount(WalletOf(wallets, u).ledger, PayoutKey(id)) == 0
  }

  /** What crediting leaves alone. */
  ghost predicate OnlyCredited(wallets: map<UserId, Wallet>, after: map<UserId, Wallet>, id: MesaId) {
    && wallets.Keys <= after.Keys
    && (forall u, key: Key :: key != PayoutKey(id) ==>
      KeyCount(WalletOf(after, u).ledger, key) == KeyCount(WalletOf(wallets, u).ledger, key))
  }

  lemma {:induction false} CreditOne(wallets: map<UserId, Wallet>, id: MesaId, payout: Payout)
    requires WalletsOk(wallets) && payout.amount > 0 && Unpaid(wallets, id, payout.userId)
    ensures Credited(WalletOf(wallets, payout.userId), payout.amount, Some(PayoutKey(id))).Some?
    ensures var after :=
      wallets[payout.userId := Credited(WalletOf(wallets, payout.userId), payout.amount, Some(PayoutKey(id))).value];
      && WalletsOk(after) && OnlyCredited(wallets, after, id)
      && Total(Balances(after)) == Total(Balances(wallets)) + payout.amount
      && forall u :: u != payout.userId ==> WalletOf(after, u) == WalletOf(wallets, u)
  {
    var w := WalletOf(wallets, payout.userId);
    var credited := Credited(w, payout.amount, Some(PayoutKey(id))).value;
    CreditKeepsWallet(w, payout.amount, Some(PayoutKey(id)), credited);
    WalletChanges(wallets, payout.userId, credited);
    forall u, key: Key | key != PayoutKey(id)
      ensures KeyCount(WalletOf(wallets[payout.userId := credited], u).ledger, key)
        == KeyCount(WalletOf(wallets, u).ledger, key)
    {
      KeyedMovesOnce(w, payout.amount, PayoutKey(id), key, credited);
    }
  }

  /** The user's wallet with one credit for the Mesa more. */
  function PaidInto(w: Wallet, id: MesaId, amount: int): Wallet {
    Wallet(w.balance + amount, w.ledger + [LedgerEntry(CREDIT, amount, Some(PayoutKey(id)))])
  }

  lemma {:induction false} CreditPaysInto(w: Wallet, id: MesaId, amount: int)
    requires Credited(w, amount, Some(PayoutKey(id))).Some?
    ensures Credited(w, amount, Some(PayoutKey(id))).value == PaidInto(w, id, amount)
  {}

  /** Payouts to different users that go through are paid into their wallets, each into its own. */
  lemma {:induction false} CreditAllPaysInto(wallets: map<UserId, Wallet>, id: MesaId, payouts: seq<Payout>, i: nat)
    requires DistinctPayees(payouts) && CreditAll(wallets, id, payouts).Some? && i < |payouts|
    ensures WalletOf(CreditAll(wallets, id, payouts).value, payouts[i].userId)
      == PaidInto(WalletOf(wallets, payouts[i].userId), id, payouts[i].amount)
  {
    var init, last := payouts[..|payouts| - 1], payouts[|payouts| - 1];
    assert payouts == init + [last];
    var before := CreditAll(wallets, id, init).value;
    if i < |init| {
      CreditAllPaysInto(wallets, id, init, i);
      assert payouts[i].userId != last.userId;
    } else {
      OthersGainNothing(wallets, id, init, last.userId);
      CreditPaysInto(WalletOf(before, last.userId), id, last.amount);
    }
  }

  lemma {:induction false} OthersGainNothing(wallets: map<UserId, Wallet>, id: MesaId, payouts: seq<Payout>, u: UserId)
    requires CreditAll(wallets, id, payouts).Some? && forall i :: 0 <= i < |payouts| ==> payouts[i].userId != u
    ensures WalletOf(CreditAll(wallets, id, payouts).value, u) == WalletOf(wallets, u)
  {
    if payouts != [] {
      OthersGainNothing(wallets, id, payouts[..|payouts| - 1], u);
    }
  }

  lemma {:induction false} OnlyCreditedTwice(a: map<UserId, Wallet>, b: map<UserId, Wallet>, c: map<UserId, Wallet>,
                                             id: MesaId)
    requires OnlyCredited(a, b, id) && OnlyCredited(b, c, id)
    ensures OnlyCredited(a, c, id)
  {}

  /** Payouts to different users who have not been paid yet all go through exactly when none is
      worth nothing; then the wallets gain exactly what is paid out, and otherwise no wallet
      gains anything. */
  lemma {:induction false} CreditAllExactly(wallets: map<UserId, Wallet>, id: MesaId, payouts: seq<Payout>)
    requires WalletsOk(wallets) && DistinctPayees(payouts)
    requires forall p :: p in payouts ==> Unpaid(wallets, id, p.userId)
    ensures CreditAll(wallets, id, payouts).Some? <==> Payable(payouts)
    ensures CreditAll(wallets, id, payouts).Some? ==> var after := CreditAll(wallets, id, payouts).value;
      && WalletsOk(after) && OnlyCredited(wallets, after, id)
      && Total(Balances(after)) == Total(Balances(wallets)) + PaidOut(payouts)
      && forall u :: (forall p :: p in payouts ==> p.userId != u) ==> WalletOf(after, u) == WalletOf(wallets, u)
  {
    if payouts != [] {
      var init, last := payouts[..|payouts| - 1], payouts[|payouts| - 1];
      assert payouts == init + [last];
      PayableLast(payouts);
      CreditAllExactly(wallets, id, init);
      if CreditAll(wallets, id, init).Some? && last.amount > 0 {
        var before := CreditAll(wallets, id, init).value;
        assert last in payouts;
        assert WalletOf(before, last.userId) == WalletOf(wallets, last.userId);
        CreditOne(before, id, last);
        OnlyCreditedTwice(wallets, before, CreditAll(wallets, id, payouts).value, id);
      }
    }
  }

  // ---- payouts ----

  /** The distribution of a sound Mesa is one, unless the Mesa is free. */
  lemma {:induction false} SoundDistribution(t: Terms)
    requires SoundTerms(t)
    ensures Distribution(t).Ok?
    ensures t.category != FREE ==> IsDistribution(Distribution(t).value)
    ensures t.category == FREE ==> Distribution(t).value == []
  {
    if t.category != FREE {
      ValidDistributionsExactly(t.prizeDistribution, ValidateDistribution(t.prizeDistribution).value);
    }
  }

  /** A settled Mesa pays out its whole prize, to different users, and nothing negative. */
  lemma {:induction false} SettlementPaysThePrize(t: Terms, gross: int, rows: seq<PrizeRow>)
    requires SoundTerms(t) && gross >= 0 && CompetitionPositions(rows) && rows != []
    requires forall i, j :: 0 <= i < j < |rows| ==> rows[i].userId != rows[j].userId
    ensures var payouts := Payouts(ExpectedTotals(t, gross).prizePool, Distribution(t).value, rows);
      && PaidOut(payouts) == ExpectedTotals(t, gross).prizePool
      && DistinctPayees(payouts) && forall p :: p in payouts ==> p.amount >= 0
  {
    var d, pool := Distribution(t).value, ExpectedTotals(t, gross).prizePool;
    SoundDistribution(t);
    PayeesAreDistinct(pool, d, rows);
    assert pool >= 0;
    if t.category != FREE {
      if pool > 0 {
        RankedMesaPaysWholePool(pool, d, rows);
      }
      forall i | 0 <= i < |Payouts(pool, d, rows)| ensures Payouts(pool, d, rows)[i].amount >= 0 {
        PayoutIsPositiveExactly(pool, d, rows, i);
      }
    }
  }

  // ---- the rows of a closing Mesa ----

  ghost predicate DistinctWindowRows(rows: seq<Row>) {
    forall i, j :: 0 <= i < j < |rows| ==> rows[i].userId != rows[j].userId
  }

  lemma {:induction false} DistinctPermutedRows(rows: seq<Row>, sorted: seq<Row>, i: nat, j: nat)
    requires DistinctWindowRows(rows) && multiset(sorted) == multiset(rows) && i < j < |sorted|
    ensures sorted[i].userId != sorted[j].userId
  {
    DistinctPermuted(rows, sorted);
    assert sorted[i] in multiset(sorted) && sorted[j] in multiset(sorted);
    var k :| 0 <= k < |rows| && rows[k] == sorted[i];
    var l :| 0 <= l < |rows| && rows[l] == sorted[j];
  }

  lemma {:induction false} RankedUsersAreDistinct(rows: seq<Row>)
    requires DistinctWindowRows(rows)
    ensures DistinctRows(Ranking(rows, RowMetrics))
  {
    var ranked := Ranking(rows, RowMetrics);
    RankingPermutes(rows, RowMetrics);
    forall i, j | 0 <= i < j < |ranked| ensures ranked[i].row.userId != ranked[j].row.userId {
      DistinctPermutedRows(rows, Rows(ranked), i, j);
    }
  }

  /** The row that a participant is frozen with. */
  lemma {:induction false} RankedRowFor(rows: seq<Row>, k: nat)
    requires DistinctWindowRows(rows) && k < |rows|
    ensures RowFor(Ranking(rows, RowMetrics), rows[k].userId)
      == Some(Ranked(rows[k], 1 + CountBetter(rows, RowMetrics, RowMetrics(rows[k]))))
  {
    var ranked, u := Ranking(rows, RowMetrics), rows[k].userId;
    RankingPermutes(rows, RowMetrics);
    assert rows[k] in multiset(rows);
    assert rows[k] in Rows(ranked);
    var i :| 0 <= i < |ranked| && Rows(ranked)[i] == rows[k];
    assert ranked[i] in ranked;
    var found := RowFor(ranked, u).value;
    var j :| 0 <= j < |ranked| && ranked[j] == found;
    RankedUsersAreDistinct(rows);
  }
}
