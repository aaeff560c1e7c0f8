/** Wallets and their ledgers: the paid entry, the payout and the administrative movements. */
module Wallets {
  import opened Collections
  import opened Domain

  datatype EntryType = CREDIT | DEBIT

  /** The idempotency keys `bolao:entry:<mesa>:<user>` and `bolao:payout:<mesa>:<user>`; the
      user is the owner of the wallet, so uniqueness is uniqueness within the wallet. */
  datatype Key = EntryKey(mesa: MesaId) | PayoutKey(mesa: MesaId)

  datatype LedgerEntry = LedgerEntry(kind: EntryType, amount: int, key: Option<Key>)
  datatype Wallet = Wallet(balance: int, ledger: seq<LedgerEntry>)

  const NEW_WALLET := Wallet(0, [])

  function Signed(e: LedgerEntry): int {
    if e.kind == CREDIT then e.amount else -e.amount
  }

  function LedgerSum(ledger: seq<LedgerEntry>): int {
    if ledger == [] then 0 else LedgerSum(ledger[..|ledger| - 1]) + Signed(ledger[|ledger| - 1])
  }

  /** How often a key occurs in a ledger. */
  function KeyCount(ledger: seq<LedgerEntry>, key: Key): nat {
    if ledger == [] then 0
    else KeyCount(ledger[..|ledger| - 1], key) + if ledger[|ledger| - 1].key == Some(key) then 1 else 0
  }

  /** What the table lets in: `CHECK ("amount" > 0)` and the unique index on the key. */
  predicate Insertable(ledger: seq<LedgerEntry>, amount: int, key: Option<Key>) {
    amount > 0 && (key.None? || KeyCount(ledger, key.value) == 0)
  }

  function Append(w: Wallet, e: LedgerEntry): Wallet {
    Wallet(w.balance + Signed(e), w.ledger + [e])
  }

  /** A guarded decrement with its ledger row; `None` when the guard or the table refuses. */
  function Debited(w: Wallet, amount: int, key: Option<Key>): Option<Wallet> {
    if w.balance >= amount && Insertable(w.ledger, amount, key)
    then Some(Append(w, LedgerEntry(DEBIT, amount, key))) else None
  }

  /** An increment with its ledger row; `None` when the table refuses the row. */
  function Credited(w: Wallet, amount: int, key: Option<Key>): Option<Wallet> {
    if Insertable(w.ledger, amount, key) then Some(Append(w, LedgerEntry(CREDIT, amount, key))) else None
  }

  ghost predicate UniqueKeys(ledger: seq<LedgerEntry>) {
    forall key :: KeyCount(ledger, key) <= 1
  }

  /** The balance is what the ledger says and never negative, and no key occurs twice. */
  ghost predicate WalletOk(w: Wallet) {
    w.balance == LedgerSum(w.ledger) >= 0 && UniqueKeys(w.ledger)
  }

  lemma {:induction false} AppendKeepsWallet(w: Wallet, e: LedgerEntry)
    requires WalletOk(w) && w.balance + Signed(e) >= 0 && Insertable(w.ledger, e.amount, e.key)
    ensures WalletOk(Append(w, e))
  {}

  lemma {:induction false} AppendCounts(w: Wallet, e: LedgerEntry, key: Key)
    ensures KeyCount(Append(w, e).ledger, key) == KeyCount(w.ledger, key) + if e.key == Some(key) then 1 else 0
  {}

  /** A debit that goes through keeps the wallet in order and takes exactly the amount. */
  lemma {:induction false} DebitKeepsWallet(w: Wallet, amount: int, key: Option<Key>, after: Wallet)
    requires WalletOk(w) && Debited(w, amount, key) == Some(after)
    ensures WalletOk(after) && after.balance == w.balance - amount
  {}

  lemma {:induction false} CreditKeepsWallet(w: Wallet, amount: int, key: Option<Key>, after: Wallet)
    requires WalletOk(w) && Credited(w, amount, key) == Some(after)
    ensures WalletOk(after) && after.balance == w.balance + amount
  {}

  /** A keyed movement goes through only once. */
  lemma {:induction false} KeyedMovesOnce(w: Wallet, amount: int, key: Key, other: Key, after: Wallet)
    requires Debited(w, amount, Some(key)) == Some(after) || Credited(w, amount, Some(key)) == Some(after)
    ensures KeyCount(w.ledger, key) == 0
    ensures KeyCount(after.ledger, other) == KeyCount(w.ledger, other) + if key == other then 1 else 0
    ensures Debited(after, amount, Some(key)).None? && Credited(after, amount, Some(key)).None?
  {
    AppendCounts(w, after.ledger[|w.ledger|], other);
    AppendCounts(w, after.ledger[|w.ledger|], key);
  }
}
