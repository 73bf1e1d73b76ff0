/**
 * app/services/statement_service.py: a statement of every account the
 * holder has, each listing that account's transactions inside the period,
 * newest first. `now` is the clock reading both ends of the period use.
 */
module StatementService {
  import opened Wrappers
  import opened Records
  import opened Db
  import Seqs
  import AccountService

  const SecondsPerDay := 86400
  /** The `days` parameter's default. */
  const DefaultDays := 30

  datatype StatementTransaction = StatementTransaction(
    transactionId: string,
    kind: TransactionKind,
    amount: int,
    description: Option<string>,
    createdAt: int)

  datatype AccountStatement = AccountStatement(
    accountId: int,
    accountNumber: string,
    kind: AccountKind,
    balance: int,
    transactions: seq<StatementTransaction>)

  datatype Statement = Statement(
    periodStart: int,
    periodEnd: int,
    accounts: seq<AccountStatement>,
    totalTransactions: int)

  /** `now - timedelta(days=days)` in seconds. */
  function PeriodStart(now: int, days: int): int {
    now - days * SecondsPerDay
  }

  /** The StatementTransaction built from a stored row. */
  function Line(t: Transaction): StatementTransaction {
    StatementTransaction(t.transactionId, t.kind, t.amount, t.description, t.createdAt)
  }

  function CreatedAt(t: Transaction): int {
    t.createdAt
  }

  /** The filter of the inner query: this account, created at or after the period start. */
  predicate InWindow(t: Transaction, accountId: int, start: int) {
    t.accountId == accountId && t.createdAt >= start
  }

  /** The inner query: that account's rows inside the period, newest first. */
  function Window(txns: seq<Transaction>, accountId: int, start: int): (r: seq<Transaction>)
    ensures forall t :: t in r <==> t in txns && InWindow(t, accountId, start)
    ensures multiset(r) == multiset(Seqs.Filter(txns, (t: Transaction) => InWindow(t, accountId, start)))
    ensures Seqs.Descending(r, CreatedAt)
  {
    var rows := Seqs.Filter(txns, (t: Transaction) => InWindow(t, accountId, start));
    Seqs.SortedMembers(rows, CreatedAt);
    Seqs.SortDescending(rows, CreatedAt)
  }

  /** The StatementTransactions of some rows, in their order. */
  function Lines(rows: seq<Transaction>): (lines: seq<StatementTransaction>)
    ensures |lines| == |rows| && forall i | 0 <= i < |rows| :: lines[i] == Line(rows[i])
  {
    seq(|rows|, i requires 0 <= i < |rows| => Line(rows[i]))
  }

  /** The AccountStatement of one account: its current balance and its rows in the period. */
  function AccountStatementOf(a: Account, txns: seq<Transaction>, start: int): AccountStatement {
    AccountStatement(a.id, a.number, a.kind, a.balance, Lines(Window(txns, a.id, start)))
  }

  /** One statement per account, in the order the accounts come. */
  function AccountStatements(accounts: seq<Account>, txns: seq<Transaction>, start: int): seq<AccountStatement> {
    seq(|accounts|, i requires 0 <= i < |accounts| => AccountStatementOf(accounts[i], txns, start))
  }

  /** The number of transaction lines across all account statements. */
  function LineCount(statements: seq<AccountStatement>): nat {
    if statements == [] then 0
    else LineCount(statements[..|statements| - 1]) + |statements[|statements| - 1].transactions|
  }

  /** The statements of one more account. */
  lemma AccountStatementsSnoc(accounts: seq<Account>, txns: seq<Transaction>, start: int, i: nat)
    requires i < |accounts|
    ensures AccountStatements(accounts[..i + 1], txns, start)
         == AccountStatements(accounts[..i], txns, start) + [AccountStatementOf(accounts[i], txns, start)]
  {
  }

  lemma LineCountSnoc(statements: seq<AccountStatement>, s: AccountStatement)
    ensures LineCount(statements + [s]) == LineCount(statements) + |s.transactions|
  {
    assert (statements + [s])[..|statements|] == statements;
  }

  /** get_user_statement. Reads the store and changes nothing. */
  method GetUserStatement(db: Database, userId: int, days: int := DefaultDays, now: int) returns (s: Statement)
    ensures s.periodStart == PeriodStart(now, days) && s.periodEnd == now
    ensures s.accounts == AccountStatements(AccountService.GetUserAccounts(db.accounts, userId),
                                            db.transactions, PeriodStart(now, days))
    ensures s.totalTransactions == LineCount(s.accounts)
  {
    var accounts := AccountService.GetUserAccounts(db.accounts, userId);
    var periodStart := PeriodStart(now, days);
    var periodEnd := now;
    var statements: seq<AccountStatement> := [];
    var total := 0;
    for i := 0 to |accounts|
      invariant statements == AccountStatements(accounts[..i], db.transactions, periodStart)
      invariant total == LineCount(statements)
    {
      var rows := Window(db.transactions, accounts[i].id, periodStart);
      var next := AccountStatement(accounts[i].id, accounts[i].number, accounts[i].kind, accounts[i].balance, Lines(rows));
      AccountStatementsSnoc(accounts, db.transactions, periodStart, i);
      LineCountSnoc(statements, next);
      statements := statements + [next];
      total := total + |rows|;
    }
    assert accounts[..|accounts|] == accounts;
    return Statement(periodStart, periodEnd, statements, total);
  }

  /** Every account statement is of an account the holder has, and carries its balance. */
  lemma StatementAccountsAreHolders(accounts: seq<Account>, txns: seq<Transaction>, userId: int, start: int, k: nat)
    requires k < |AccountService.GetUserAccounts(accounts, userId)|
    ensures var statements := AccountStatements(AccountService.GetUserAccounts(accounts, userId), txns, start);
      var a := AccountService.GetUserAccounts(accounts, userId)[k];
      a in accounts && a.holderId == userId
      && statements[k].accountId == a.id && statements[k].accountNumber == a.number
      && statements[k].balance == a.balance
  {
    var owned := AccountService.GetUserAccounts(accounts, userId);
    assert owned[k] in owned;
  }

  /** Every account the holder has gets a statement. */
  lemma HolderAccountsHaveStatements(accounts: seq<Account>, txns: seq<Transaction>, userId: int, start: int, i: nat)
    requires i < |accounts| && accounts[i].holderId == userId
    ensures var statements := AccountStatements(AccountService.GetUserAccounts(accounts, userId), txns, start);
      exists k | 0 <= k < |statements| :: statements[k] == AccountStatementOf(accounts[i], txns, start)
  {
    var owned := AccountService.GetUserAccounts(accounts, userId);
    assert accounts[i] in owned;
    var k :| 0 <= k < |owned| && owned[k] == accounts[i];
    assert AccountStatements(owned, txns, start)[k] == AccountStatementOf(accounts[i], txns, start);
  }

  /**
   * No account has two statements: with the table's autoincrement ids, the
   * statements of two positions name different accounts. With
   * HolderAccountsHaveStatements, each account of the holder has exactly one.
   */
  lemma StatementPerAccountUnique(accounts: seq<Account>, txns: seq<Transaction>, userId: int, start: int,
                                  k: nat, k': nat)
    requires AccountIdsDense(accounts)
    requires k < |AccountService.GetUserAccounts(accounts, userId)|
    requires k' < |AccountService.GetUserAccounts(accounts, userId)|
    ensures var statements := AccountStatements(AccountService.GetUserAccounts(accounts, userId), txns, start);
      statements[k].accountId == statements[k'].accountId ==> k == k'
  {
    var owned := AccountService.GetUserAccounts(accounts, userId);
    var statements := AccountStatements(owned, txns, start);
    assert Seqs.Distinct(accounts) by {
      forall i, j | 0 <= i < j < |accounts| ensures accounts[i] != accounts[j] {
        assert accounts[i].id != accounts[j].id;
      }
    }
    if statements[k].accountId == statements[k'].accountId {
      assert owned[k] in owned && owned[k'] in owned;
      var i :| 0 <= i < |accounts| && accounts[i] == owned[k];
      var j :| 0 <= j < |accounts| && accounts[j] == owned[k'];
      assert i == j;
    }
  }

  /**
   * An account statement lists exactly the account's rows inside the
   * period: every such row has a line, and every line is such a row.
   */
  lemma AccountStatementIsWindow(a: Account, txns: seq<Transaction>, start: int)
    ensures var s := AccountStatementOf(a, txns, start);
      (forall t | t in txns && t.accountId == a.id && t.createdAt >= start :: Line(t) in s.transactions)
      && (forall line | line in s.transactions ::
            exists t | t in txns :: t.accountId == a.id && t.createdAt >= start && Line(t) == line)
  {
    var s := AccountStatementOf(a, txns, start);
    var rows := Window(txns, a.id, start);
    forall t | t in txns && t.accountId == a.id && t.createdAt >= start ensures Line(t) in s.transactions {
      var i :| 0 <= i < |rows| && rows[i] == t;
      assert s.transactions[i] == Line(t);
    }
    forall line | line in s.transactions
      ensures exists t | t in txns :: t.accountId == a.id && t.createdAt >= start && Line(t) == line
    {
      var i :| 0 <= i < |s.transactions| && s.transactions[i] == line;
      assert rows[i] in rows;
    }
  }

  /** Each account's lines are newest first. */
  lemma AccountStatementNewestFirst(a: Account, txns: seq<Transaction>, start: int)
    ensures var s := AccountStatementOf(a, txns, start);
      forall i, j | 0 <= i < j < |s.transactions| :: s.transactions[i].createdAt >= s.transactions[j].createdAt
  {
    var rows := Window(txns, a.id, start);
    assert forall i, j | 0 <= i < j < |rows| :: CreatedAt(rows[i]) >= CreatedAt(rows[j]);
  }
}
