/**
 * app/services/admin_service.py: the dashboard's newest accounts, newest
 * transactions and system totals. Amounts stay in integer cents and
 * timestamps in seconds; the float and strftime renderings are not modelled.
 */
module AdminService {
  import opened Wrappers
  import opened Records
  import opened Db
  import Seqs

  /** The `limit` parameter's default. */
  const DefaultLimit := 10

  /** One entry of get_recent_accounts. */
  datatype RecentAccount = RecentAccount(
    id: int,
    accountNumber: string,
    kind: AccountKind,
    balance: int,
    holderName: string,
    holderEmail: string,
    createdAt: int,
    active: bool)

  /** One entry of get_recent_transactions. */
  datatype RecentTransaction = RecentTransaction(
    id: int,
    transactionId: string,
    transactionType: string,
    amount: int,
    accountNumber: string,
    holderName: string,
    description: string,
    peerAccount: string,
    peerRouting: string,
    createdAt: int)

  /** The get_dashboard_stats result. */
  datatype DashboardStats = DashboardStats(
    totalAccounts: nat,
    totalTransactions: nat,
    totalUsers: nat,
    totalBalance: int)

  function AccountCreatedAt(a: Account): int {
    a.createdAt
  }

  function TransactionCreatedAt(t: Transaction): int {
    t.createdAt
  }

  /** ORDER BY created_at DESC LIMIT limit. */
  function Newest<T(!new)>(rows: seq<T>, createdAt: T -> int, limit: nat): (top: seq<T>)
    ensures |top| == if limit < |rows| then limit else |rows|
    ensures Seqs.Descending(top, createdAt)
    ensures forall x | x in top :: x in rows
  {
    var sorted := Seqs.SortDescending(rows, createdAt);
    Seqs.SortedMembers(rows, createdAt);
    Seqs.Take(sorted, limit)
  }

  /**
   * The list repeats no row more often than the table stores it, and with a
   * limit that covers the table it is a reordering of the whole table.
   */
  lemma NewestKeepsRows<T(!new)>(rows: seq<T>, createdAt: T -> int, limit: nat)
    ensures multiset(Newest(rows, createdAt, limit)) <= multiset(rows)
    ensures limit >= |rows| ==> multiset(Newest(rows, createdAt, limit)) == multiset(rows)
  {
    var sorted := Seqs.SortDescending(rows, createdAt);
    var top := Seqs.Take(sorted, limit);
    assert multiset(top) <= multiset(sorted);
    if limit >= |rows| {
      assert top == sorted;
    }
  }

  /** A row the limit leaves out is no newer than any row returned. */
  lemma NewestLeavesOutOlder<T(!new)>(rows: seq<T>, createdAt: T -> int, limit: nat, y: T)
    requires y in rows && y !in Newest(rows, createdAt, limit)
    ensures forall x | x in Newest(rows, createdAt, limit) :: createdAt(y) <= createdAt(x)
  {
    Seqs.TopRows(rows, createdAt, limit, y);
  }

  /** The dictionary built for one account and its holder. */
  function AccountEntry(a: Account, holder: AccountHolder): RecentAccount {
    RecentAccount(a.id, a.number, a.kind, a.balance, holder.name, holder.email, a.createdAt, a.active)
  }

  /** `value or ""` */
  function OrEmpty(o: Option<string>): (s: string)
    ensures o.None? ==> s == ""
    ensures o.Some? ==> s == o.value
  {
    o.GetOr("")
  }

  /** The dictionary built for one transaction, its account and that account's holder. */
  function TransactionEntry(t: Transaction, a: Account, holder: AccountHolder): RecentTransaction {
    RecentTransaction(t.id, t.transactionId, TransactionKindName(t.kind), t.amount, a.number, holder.name,
                      OrEmpty(t.description), OrEmpty(t.peerAccount), OrEmpty(t.peerRouting), t.createdAt)
  }

  /** The inner joins find the account's holder. */
  predicate HolderOnFile(a: Account, holders: seq<AccountHolder>) {
    1 <= a.holderId <= |holders|
  }

  /** The inner joins find the transaction's account and that account's holder. */
  predicate AccountOnFile(t: Transaction, accounts: seq<Account>, holders: seq<AccountHolder>) {
    1 <= t.accountId <= |accounts| && HolderOnFile(accounts[t.accountId - 1], holders)
  }

  /** The entry of an account, joined with its holder. */
  function JoinedAccount(a: Account, holders: seq<AccountHolder>): RecentAccount
    requires HolderOnFile(a, holders)
  {
    AccountEntry(a, holders[a.holderId - 1])
  }

  /** The entry of a transaction, joined with its account and holder. */
  function JoinedTransaction(t: Transaction, accounts: seq<Account>, holders: seq<AccountHolder>): RecentTransaction
    requires AccountOnFile(t, accounts, holders)
  {
    var a := accounts[t.accountId - 1];
    TransactionEntry(t, a, holders[a.holderId - 1])
  }

  /**
   * get_recent_accounts: the `limit` newest accounts, newest first, each
   * with its holder's name and e-mail. The join drops no account, because
   * every account's holder exists.
   */
  method GetRecentAccounts(db: Database, limit: nat := DefaultLimit) returns (result: seq<RecentAccount>)
    requires db.Valid()
    ensures var top := Newest(db.accounts, AccountCreatedAt, limit);
      |result| == |top| && |result| <= limit
      && forall i | 0 <= i < |top| :: HolderOnFile(top[i], db.holders) && result[i] == JoinedAccount(top[i], db.holders)
    ensures forall i, j | 0 <= i < j < |result| :: result[i].createdAt >= result[j].createdAt
  {
    var top := Newest(db.accounts, AccountCreatedAt, limit);
    result := [];
    for i := 0 to |top|
      invariant |result| == i
      invariant forall k | 0 <= k < i :: HolderOnFile(top[k], db.holders) && result[k] == JoinedAccount(top[k], db.holders)
    {
      var account := top[i];
      assert account in db.accounts;
      var holder := db.holders[account.holderId - 1];
      result := result + [AccountEntry(account, holder)];
    }
    assert forall i, j | 0 <= i < j < |top| :: AccountCreatedAt(top[i]) >= AccountCreatedAt(top[j]);
  }

  /**
   * get_recent_transactions: the `limit` newest transactions, newest first,
   * each with its account's number and holder's name, and "" for a missing
   * description or peer field. The joins drop no transaction.
   */
  method GetRecentTransactions(db: Database, limit: nat := DefaultLimit) returns (result: seq<RecentTransaction>)
    requires db.Valid()
    ensures var top := Newest(db.transactions, TransactionCreatedAt, limit);
      |result| == |top| && |result| <= limit
      && forall i | 0 <= i < |top| ::
           AccountOnFile(top[i], db.accounts, db.holders)
           && result[i] == JoinedTransaction(top[i], db.accounts, db.holders)
    ensures forall i, j | 0 <= i < j < |result| :: result[i].createdAt >= result[j].createdAt
  {
    var top := Newest(db.transactions, TransactionCreatedAt, limit);
    result := [];
    for i := 0 to |top|
      invariant |result| == i
      invariant forall k | 0 <= k < i ::
        AccountOnFile(top[k], db.accounts, db.holders) && result[k] == JoinedTransaction(top[k], db.accounts, db.holders)
    {
      var txn := top[i];
      assert txn in db.transactions;
      var account := db.accounts[txn.accountId - 1];
      var holder := db.holders[account.holderId - 1];
      result := result + [TransactionEntry(txn, account, holder)];
    }
    assert forall i, j | 0 <= i < j < |top| :: TransactionCreatedAt(top[i]) >= TransactionCreatedAt(top[j]);
  }

  /** `func.sum(Account.balance)`: SQL's SUM, which is NULL over no rows. */
  function SqlSum(accounts: seq<Account>): (s: Option<int>)
    ensures s.None? <==> accounts == []
    ensures s.Some? ==> s.value == TotalBalance(accounts)
  {
    if accounts == [] then None else Some(TotalBalance(accounts))
  }

  /** `.scalar() or 0`: NULL, and a zero sum, become 0. */
  function OrZero(s: Option<int>): int {
    match s
    case None => 0
    case Some(v) => if v == 0 then 0 else v
  }

  /** get_dashboard_stats: the three row counts and the sum of all balances. */
  function GetDashboardStats(accounts: seq<Account>, txns: seq<Transaction>, holders: seq<AccountHolder>)
    : (stats: DashboardStats)
    ensures stats.totalAccounts == |accounts| && stats.totalTransactions == |txns| && stats.totalUsers == |holders|
    ensures stats.totalBalance == TotalBalance(accounts)
    ensures accounts == [] ==> stats.totalBalance == 0
  {
    DashboardStats(|accounts|, |txns|, |holders|, OrZero(SqlSum(accounts)))
  }

  /** With the balance constraint, the system balance is never negative. */
  lemma DashboardBalanceNonNegative(accounts: seq<Account>, txns: seq<Transaction>, holders: seq<AccountHolder>)
    requires AccountsValid(accounts, |holders|)
    ensures GetDashboardStats(accounts, txns, holders).totalBalance >= 0
  {
    TotalBalanceNonNegative(accounts);
  }
}
