/**
 * The relational store one database session sees: the four tables the core
 * touches and the constraints the schema declares on them. Primary keys are
 * autoincrement and no row is ever deleted, so the row with id k sits at
 * index k - 1 of its table.
 */
module Db {
  import opened Wrappers
  import opened Records

  /** Unique account_number across the accounts table. */
  predicate NumbersUnique(accounts: seq<Account>) {
    forall i, j | 0 <= i < j < |accounts| :: accounts[i].number != accounts[j].number
  }

  /** Autoincrement ids with no deletions: the row with id k is the k-th row. */
  predicate AccountIdsDense(accounts: seq<Account>) {
    forall i | 0 <= i < |accounts| :: accounts[i].id == i + 1
  }

  /** The accounts table: ids, CHECK constraints and widths, the holder foreign key, unique numbers. */
  predicate AccountsValid(accounts: seq<Account>, holderCount: int) {
    AccountIdsDense(accounts)
    && (forall i | 0 <= i < |accounts| ::
          ValidAccount(accounts[i]) && 1 <= accounts[i].holderId <= holderCount)
    && NumbersUnique(accounts)
  }

  /** Unique transaction_id across the transactions table. */
  predicate TransactionIdsUnique(txns: seq<Transaction>) {
    forall i, j | 0 <= i < j < |txns| :: txns[i].transactionId != txns[j].transactionId
  }

  /** The transactions table: ids, CHECK constraints and widths, the account foreign key, unique ids. */
  predicate TransactionsValid(txns: seq<Transaction>, accountCount: int) {
    (forall i | 0 <= i < |txns| ::
       txns[i].id == i + 1 && ValidTransaction(txns[i]) && 1 <= txns[i].accountId <= accountCount)
    && TransactionIdsUnique(txns)
  }

  /** The UNIQUE constraint on account_holders.email. */
  predicate EmailsUnique(holders: seq<AccountHolder>) {
    forall i, j | 0 <= i < j < |holders| :: holders[i].email != holders[j].email
  }

  /** The account_holders table: ids, column widths and unique e-mail addresses. */
  predicate HoldersValid(holders: seq<AccountHolder>) {
    (forall i | 0 <= i < |holders| :: holders[i].id == i + 1 && ValidHolder(holders[i]))
    && EmailsUnique(holders)
  }

  /** The cards table: ids and the account foreign key. */
  predicate CardsValid(cards: seq<Card>, accountCount: int) {
    forall i | 0 <= i < |cards| :: cards[i].id == i + 1 && 1 <= cards[i].accountId <= accountCount
  }

  /** `db.query(Account).filter(Account.id == id).first()` finds a row. */
  predicate HasAccount(accounts: seq<Account>, id: int) {
    0 < id <= |accounts|
  }

  /** Some account already has this number. */
  predicate NumberTaken(accounts: seq<Account>, number: string) {
    exists i | 0 <= i < |accounts| :: accounts[i].number == number
  }

  /** `db.query(Account).filter(Account.account_number == number).first()`, as an index. */
  function FindByNumber(accounts: seq<Account>, number: string): (r: Option<nat>)
    ensures r.Some? ==> r.value < |accounts| && accounts[r.value].number == number
    ensures r.Some? ==> forall j | 0 <= j < r.value :: accounts[j].number != number
    ensures r.None? <==> !NumberTaken(accounts, number)
  {
    if accounts == [] then None
    else if accounts[0].number == number then Some(0)
    else
      match FindByNumber(accounts[1..], number)
      case None =>
        assert forall j | 1 <= j < |accounts| :: accounts[j] == accounts[1..][j - 1];
        None
      case Some(k) => Some(k + 1)
  }

  /** The ids of the accounts `userId` holds: the `account_ids` list the services build. */
  function OwnedAccountIds(accounts: seq<Account>, userId: int): (ids: seq<int>)
    ensures forall id :: id in ids <==> exists i | 0 <= i < |accounts| :: accounts[i].id == id && accounts[i].holderId == userId
  {
    if accounts == [] then []
    else
      var rest := OwnedAccountIds(accounts[1..], userId);
      assert forall i | 1 <= i < |accounts| :: accounts[i] == accounts[1..][i - 1];
      if accounts[0].holderId == userId then [accounts[0].id] + rest else rest
  }

  /** The sum of all balances. */
  function TotalBalance(accounts: seq<Account>): int {
    if accounts == [] then 0 else accounts[0].balance + TotalBalance(accounts[1..])
  }

  lemma {:induction false} TotalBalanceNonNegative(accounts: seq<Account>)
    requires forall i | 0 <= i < |accounts| :: accounts[i].balance >= 0
    ensures TotalBalance(accounts) >= 0
  {
    if accounts != [] {
      TotalBalanceNonNegative(accounts[1..]);
    }
  }

  /** Replacing one row changes the total by the difference of the two balances. */
  lemma {:induction false} TotalBalanceUpdate(accounts: seq<Account>, i: nat, a: Account)
    requires i < |accounts|
    ensures TotalBalance(accounts[i := a]) == TotalBalance(accounts) - accounts[i].balance + a.balance
  {
    if i == 0 {
      assert accounts[0 := a][1..] == accounts[1..];
    } else {
      TotalBalanceUpdate(accounts[1..], i - 1, a);
      assert accounts[i := a][1..] == accounts[1..][i - 1 := a];
    }
  }

  /** Appending a row adds its balance to the total. */
  lemma {:induction false} TotalBalanceAppend(accounts: seq<Account>, a: Account)
    ensures TotalBalance(accounts + [a]) == TotalBalance(accounts) + a.balance
  {
    if accounts != [] {
      TotalBalanceAppend(accounts[1..], a);
      assert (accounts + [a])[1..] == accounts[1..] + [a];
    }
  }

  /**
   * `account.balance += delta` on the account with this id: that balance moves
   * by exactly `delta`, every other row stays as it was, and the total moves by `delta`.
   */
  function Adjusted(accounts: seq<Account>, id: int, delta: int): (r: seq<Account>)
    requires HasAccount(accounts, id)
    ensures |r| == |accounts|
    ensures r[id - 1] == accounts[id - 1].(balance := accounts[id - 1].balance + delta)
    ensures forall k | 0 <= k < |r| && k != id - 1 :: r[k] == accounts[k]
    ensures TotalBalance(r) == TotalBalance(accounts) + delta
  {
    var a := accounts[id - 1].(balance := accounts[id - 1].balance + delta);
    TotalBalanceUpdate(accounts, id - 1, a);
    accounts[id - 1 := a]
  }

  /** A balance change that leaves the balance non-negative keeps the accounts table valid. */
  lemma AdjustedValid(accounts: seq<Account>, holderCount: int, id: int, delta: int)
    requires AccountsValid(accounts, holderCount) && HasAccount(accounts, id)
    requires accounts[id - 1].balance + delta >= 0
    ensures AccountsValid(Adjusted(accounts, id, delta), holderCount)
    ensures forall k | 0 <= k < |accounts| ::
      Adjusted(accounts, id, delta)[k].number == accounts[k].number
      && Adjusted(accounts, id, delta)[k].holderId == accounts[k].holderId
  {
    var r := Adjusted(accounts, id, delta);
    assert forall k | 0 <= k < |r| :: r[k].number == accounts[k].number;
  }

  /** A debit that the balance covers followed by a credit keeps the accounts table valid. */
  lemma AdjustedTwiceValid(accounts: seq<Account>, holderCount: int, a: int, debit: int, b: int, credit: int)
    requires AccountsValid(accounts, holderCount) && HasAccount(accounts, a) && HasAccount(accounts, b)
    requires 0 <= debit <= accounts[a - 1].balance && credit >= 0
    ensures AccountsValid(Adjusted(Adjusted(accounts, a, -debit), b, credit), holderCount)
  {
    AdjustedValid(accounts, holderCount, a, -debit);
    AdjustedValid(Adjusted(accounts, a, -debit), holderCount, b, credit);
  }

  /** Taking an amount from an account and giving it back restores the table. */
  lemma AdjustedCancels(accounts: seq<Account>, id: int, delta: int)
    requires HasAccount(accounts, id)
    ensures Adjusted(Adjusted(accounts, id, -delta), id, delta) == accounts
  {
    var r := Adjusted(Adjusted(accounts, id, -delta), id, delta);
    assert forall k | 0 <= k < |r| :: r[k] == accounts[k];
  }

  /** A transaction id the table does not hold yet and that fits its column: what uuid4 supplies. */
  predicate FreshTransactionId(txns: seq<Transaction>, transactionId: string) {
    |transactionId| <= TransactionIdMaxLength
    && forall i | 0 <= i < |txns| :: txns[i].transactionId != transactionId
  }

  /** Appending a valid row with the next id, an existing account and a fresh transaction id keeps the table valid. */
  lemma AppendTransactionValid(txns: seq<Transaction>, accountCount: int, t: Transaction)
    requires TransactionsValid(txns, accountCount)
    requires t.id == |txns| + 1 && ValidTransaction(t) && 1 <= t.accountId <= accountCount
    requires FreshTransactionId(txns, t.transactionId)
    ensures TransactionsValid(txns + [t], accountCount)
  {
  }

  /** The database as the session sees it; the institution's routing number is configuration. */
  class Database {
    const routingNumber: string
    var accounts: seq<Account>
    var transactions: seq<Transaction>
    var holders: seq<AccountHolder>
    var cards: seq<Card>

    /** Every constraint the schema declares, and a routing number that fits an account row. */
    ghost predicate Valid()
      reads this
    {
      |routingNumber| <= RoutingNumberMaxLength
      && AccountsValid(accounts, |holders|)
      && TransactionsValid(transactions, |accounts|)
      && HoldersValid(holders)
      && CardsValid(cards, |accounts|)
    }

    constructor (routingNumber: string)
      requires |routingNumber| <= RoutingNumberMaxLength
      ensures Valid()
      ensures this.routingNumber == routingNumber
      ensures accounts == [] && transactions == [] && holders == [] && cards == []
    {
      this.routingNumber := routingNumber;
      accounts, transactions, holders, cards := [], [], [], [];
    }
  }
}
