/**
 * app/services/transaction_service.py: deposits, withdrawals and transfers,
 * which change balances and append ledger rows in one commit, and the
 * transaction history query. The uuid4 strings the source draws are inputs,
 * required to be fresh; `now` is the server clock that fills created_at.
 */
module TransactionService {
  import opened Wrappers
  import opened Errors
  import opened Records
  import opened Db
  import opened TransactionSchemas
  import Generators
  import Validators
  import Seqs

  const SourceNotFoundMessage := "Source account not found"
  const SourceAccessDeniedMessage := "Access denied to source account"
  const IncomingPrefix := "Transfer from "

  /** str(n) for a natural number: its decimal digits, with no leading zero. */
  function NatString(n: nat): (s: string)
    ensures |s| >= 1
    ensures forall i | 0 <= i < |s| :: Validators.IsAsciiDigit(s[i])
    ensures Generators.DecimalValue(s) == n
    ensures s[0] == '0' <==> n == 0
    ensures s[0] == '0' ==> |s| == 1
  {
    if n < 10 then
      assert [Generators.DigitChar(n)][..0] == [];
      [Generators.DigitChar(n)]
    else
      var prefix := NatString(n / 10);
      var s := prefix + [Generators.DigitChar(n % 10)];
      assert s[..|s| - 1] == prefix;
      s
  }

  /**
   * str(Decimal) of a Numeric(15, 2) column value, given in cents: the whole
   * units without leading zeros, a '.', and exactly two digits of cents.
   */
  function FormatCents(cents: nat): (r: string)
    ensures |r| >= 4 && r[|r| - 3] == '.'
    ensures forall i | 0 <= i < |r| && i != |r| - 3 :: Validators.IsAsciiDigit(r[i])
    ensures Generators.DecimalValue(r[..|r| - 3]) * 100 + Generators.DecimalValue(r[|r| - 2..]) == cents
    ensures r[0] == '0' ==> |r| == 4
  {
    var units := NatString(cents / 100);
    var tens, ones := cents % 100 / 10, cents % 10;
    var fraction := [Generators.DigitChar(tens), Generators.DigitChar(ones)];
    TwoDigitsValue(tens, ones);
    CentsDigits(cents);
    var r := units + "." + fraction;
    assert r[..|r| - 3] == units && r[|r| - 2..] == fraction;
    assert r[0] == units[0];
    r
  }

  /** Two digits read back as a two-digit decimal. */
  lemma TwoDigitsValue(tens: int, ones: int)
    requires 0 <= tens <= 9 && 0 <= ones <= 9
    ensures Generators.DecimalValue([Generators.DigitChar(tens), Generators.DigitChar(ones)]) == tens * 10 + ones
  {
    var f := [Generators.DigitChar(tens), Generators.DigitChar(ones)];
    assert f[..1] == [f[0]] && [f[0]][..0] == [];
    assert Generators.DigitValue(f[0]) == tens && Generators.DigitValue(f[1]) == ones;
    assert Generators.DecimalValue([f[0]]) == tens;
    assert Generators.DecimalValue(f) == Generators.DecimalValue(f[..1]) * 10 + ones;
  }

  /** An amount in cents is its whole units, its tens of cents and its cents. */
  lemma CentsDigits(cents: nat)
    ensures cents / 100 * 100 + cents % 100 / 10 * 10 + cents % 10 == cents
  {
  }

  /** The InsufficientFundsError message of a refused withdrawal. */
  function WithdrawalRefusal(balance: nat, amount: nat): string {
    "Insufficient funds. Balance: $" + FormatCents(balance) + ", Requested: $" + FormatCents(amount)
  }

  /** The two checks every operation on one account starts with: the row exists and the caller holds it. */
  function CheckAccess(accounts: seq<Account>, userId: int, accountId: int,
                       notFound: Option<string>, denied: string): (e: Option<BankError>)
    ensures e.None? <==> HasAccount(accounts, accountId) && accounts[accountId - 1].holderId == userId
    ensures !HasAccount(accounts, accountId) ==> e == Some(Raise(AccountNotFound, notFound))
    ensures HasAccount(accounts, accountId) && accounts[accountId - 1].holderId != userId ==>
      e == Some(Raise(Unauthorized, Some(denied)))
  {
    if !HasAccount(accounts, accountId) then Some(Raise(AccountNotFound, notFound))
    else if accounts[accountId - 1].holderId != userId then Some(Raise(Unauthorized, Some(denied)))
    else None
  }

  /** create_deposit. */
  method CreateDeposit(db: Database, userId: int, request: DepositRequest, transactionId: string, now: int)
    returns (r: Result<Transaction>)
    requires db.Valid() && ValidDepositRequest(request)
    requires FreshTransactionId(db.transactions, transactionId)
    modifies db
    ensures db.Valid()
    ensures db.holders == old(db.holders) && db.cards == old(db.cards)
    ensures var e := CheckAccess(old(db.accounts), userId, request.accountId, None, AccessDeniedMessage);
      e.Some? ==> r == Err(e.value) && db.accounts == old(db.accounts) && db.transactions == old(db.transactions)
    ensures r.Ok? <==> HasAccount(old(db.accounts), request.accountId)
                       && old(db.accounts)[request.accountId - 1].holderId == userId
    ensures r.Ok? ==>
      r.value == Transaction(|old(db.transactions)| + 1, transactionId, request.accountId, Deposit,
                             request.amount, None, None, request.description, now)
      && db.transactions == old(db.transactions) + [r.value]
      && db.accounts == Adjusted(old(db.accounts), request.accountId, request.amount)
      && TotalBalance(db.accounts) == TotalBalance(old(db.accounts)) + request.amount
  {
    var denied := CheckAccess(db.accounts, userId, request.accountId, None, AccessDeniedMessage);
    if denied.Some? {
      return Err(denied.value);
    }
    var transaction := Transaction(|db.transactions| + 1, transactionId, request.accountId, Deposit,
                                   request.amount, None, None, request.description, now);
    AdjustedValid(db.accounts, |db.holders|, request.accountId, request.amount);
    AppendTransactionValid(db.transactions, |db.accounts|, transaction);
    db.accounts := Adjusted(db.accounts, request.accountId, request.amount);
    db.transactions := db.transactions + [transaction];
    return Ok(transaction);
  }

  /** create_withdrawal. */
  method CreateWithdrawal(db: Database, userId: int, request: WithdrawalRequest, transactionId: string, now: int)
    returns (r: Result<Transaction>)
    requires db.Valid() && ValidWithdrawalRequest(request)
    requires FreshTransactionId(db.transactions, transactionId)
    modifies db
    ensures db.Valid()
    ensures db.holders == old(db.holders) && db.cards == old(db.cards)
    ensures r.Err? ==> db.accounts == old(db.accounts) && db.transactions == old(db.transactions)
    ensures var e := CheckAccess(old(db.accounts), userId, request.accountId, None, AccessDeniedMessage);
      e.Some? ==> r == Err(e.value)
    ensures var e := CheckAccess(old(db.accounts), userId, request.accountId, None, AccessDeniedMessage);
      e.None? && old(db.accounts)[request.accountId - 1].balance < request.amount ==>
        r == Err(Raise(InsufficientFunds,
                       Some(WithdrawalRefusal(old(db.accounts)[request.accountId - 1].balance, request.amount))))
    ensures r.Ok? <==> HasAccount(old(db.accounts), request.accountId)
                       && old(db.accounts)[request.accountId - 1].holderId == userId
                       && old(db.accounts)[request.accountId - 1].balance >= request.amount
    ensures r.Ok? ==>
      r.value == Transaction(|old(db.transactions)| + 1, transactionId, request.accountId, Withdrawal,
                             request.amount, None, None, request.description, now)
      && db.transactions == old(db.transactions) + [r.value]
      && db.accounts == Adjusted(old(db.accounts), request.accountId, -request.amount)
      && TotalBalance(db.accounts) == TotalBalance(old(db.accounts)) - request.amount
  {
    var denied := CheckAccess(db.accounts, userId, request.accountId, None, AccessDeniedMessage);
    if denied.Some? {
      return Err(denied.value);
    }
    var balance := db.accounts[request.accountId - 1].balance;
    if balance < request.amount {
      return Err(Raise(InsufficientFunds, Some(WithdrawalRefusal(balance, request.amount))));
    }
    var transaction := Transaction(|db.transactions| + 1, transactionId, request.accountId, Withdrawal,
                                   request.amount, None, None, request.description, now);
    AdjustedValid(db.accounts, |db.holders|, request.accountId, -request.amount);
    AppendTransactionValid(db.transactions, |db.accounts|, transaction);
    db.accounts := Adjusted(db.accounts, request.accountId, -request.amount);
    db.transactions := db.transactions + [transaction];
    return Ok(transaction);
  }

  /** An internal transfer whose destination number is on file: the id of the account credited. */
  function InternalDestination(accounts: seq<Account>, routingNumber: string, request: TransferRequest): (d: Option<int>)
    ensures d.Some? <==> request.toRoutingNumber == routingNumber && NumberTaken(accounts, request.toAccountNumber)
    ensures d.Some? ==> HasAccount(accounts, d.value) && accounts[d.value - 1].number == request.toAccountNumber
  {
    if request.toRoutingNumber != routingNumber then None
    else
      match FindByNumber(accounts, request.toAccountNumber)
      case None => None
      case Some(i) => Some(i + 1)
  }

  /** The ledger row recorded on the source account. */
  function OutgoingRecord(id: int, transactionId: string, request: TransferRequest, now: int): Transaction {
    Transaction(id, transactionId, request.fromAccountId, Transfer, request.amount,
                Some(request.toRoutingNumber), Some(request.toAccountNumber), request.description, now)
  }

  /** The ledger row recorded on the destination of an internal transfer. */
  function IncomingRecord(id: int, transactionId: string, toId: int, routingNumber: string,
                          fromNumber: string, amount: int, now: int): Transaction {
    Transaction(id, transactionId, toId, Transfer, amount,
                Some(routingNumber), Some(fromNumber), Some(IncomingPrefix + fromNumber), now)
  }

  /** The tables after a transfer has passed its checks, and the row it returns. */
  datatype Posting = Posting(accounts: seq<Account>, transactions: seq<Transaction>, returned: Transaction)

  /**
   * Lines 138-171 of create_transfer once the checks pass. The source is
   * debited and gets the returned row; when the routing number is this
   * institution's and the destination number is on file, the destination is
   * credited and its row is added to the session first, so it takes the
   * smaller id. No other account changes.
   */
  function Settlement(accounts: seq<Account>, txns: seq<Transaction>, routingNumber: string,
                      request: TransferRequest, outgoingId: string, incomingId: string, now: int): (p: Posting)
    requires HasAccount(accounts, request.fromAccountId)
    ensures var dest := InternalDestination(accounts, routingNumber, request);
      p.accounts == SettledAccounts(accounts, request.fromAccountId, dest, request.amount)
    ensures var dest := InternalDestination(accounts, routingNumber, request);
      var n := if dest.Some? then 2 else 1;
      |p.transactions| == |txns| + n && p.transactions[..|txns|] == txns
      && p.transactions[|txns| + n - 1] == p.returned
      && p.returned.id == |txns| + n && p.returned.transactionId == outgoingId
      && p.returned.accountId == request.fromAccountId && p.returned.kind == Transfer
      && p.returned.amount == request.amount
      && p.returned.peerRouting == Some(request.toRoutingNumber)
      && p.returned.peerAccount == Some(request.toAccountNumber)
      && p.returned.description == request.description && p.returned.createdAt == now
    ensures var dest := InternalDestination(accounts, routingNumber, request);
      var source := accounts[request.fromAccountId - 1].number;
      dest.Some? ==>
        var incoming := p.transactions[|txns|];
        incoming.id == |txns| + 1 && incoming.transactionId == incomingId
        && incoming.accountId == dest.value && incoming.kind == Transfer && incoming.amount == request.amount
        && incoming.peerRouting == Some(routingNumber) && incoming.peerAccount == Some(source)
        && incoming.description == Some("Transfer from " + source) && incoming.createdAt == now
  {
    var dest := InternalDestination(accounts, routingNumber, request);
    var accounts' := SettledAccounts(accounts, request.fromAccountId, dest, request.amount);
    match dest
    case None =>
      var outgoing := OutgoingRecord(|txns| + 1, outgoingId, request, now);
      Posting(accounts', txns + [outgoing], outgoing)
    case Some(toId) =>
      var incoming := IncomingRecord(|txns| + 1, incomingId, toId, routingNumber,
                                     accounts[request.fromAccountId - 1].number, request.amount, now);
      var outgoing := OutgoingRecord(|txns| + 2, outgoingId, request, now);
      Posting(accounts', txns + [incoming, outgoing], outgoing)
  }

  /**
   * The balances after a settled transfer of `amount` from the account with
   * id `fromId`: the debit, then the credit of the internal destination `dest`, if any.
   */
  function SettledAccounts(accounts: seq<Account>, fromId: int, dest: Option<int>, amount: int): (r: seq<Account>)
    requires HasAccount(accounts, fromId) && (dest.Some? ==> HasAccount(accounts, dest.value))
    ensures |r| == |accounts|
    ensures forall k | 0 <= k < |r| ::
      r[k] == accounts[k].(balance := accounts[k].balance
                                      - (if k == fromId - 1 then amount else 0)
                                      + (if dest.Some? && k == dest.value - 1 then amount else 0))
  {
    var debited := Adjusted(accounts, fromId, -amount);
    match dest
    case None => debited
    case Some(toId) => Adjusted(debited, toId, amount)
  }

  /**
   * Money moves only between the parties: with a destination the sum of all
   * balances is unchanged, without one the amount leaves the institution.
   */
  lemma SettlementConservesTotal(accounts: seq<Account>, fromId: int, dest: Option<int>, amount: int)
    requires HasAccount(accounts, fromId) && (dest.Some? ==> HasAccount(accounts, dest.value))
    ensures TotalBalance(SettledAccounts(accounts, fromId, dest, amount))
      == TotalBalance(accounts) - (if dest.Some? then 0 else amount)
  {
  }

  /** Only the source and the destination, if any, change. */
  lemma SettlementTouchesOnlyParties(accounts: seq<Account>, fromId: int, dest: Option<int>, amount: int, k: nat)
    requires HasAccount(accounts, fromId) && (dest.Some? ==> HasAccount(accounts, dest.value))
    requires k < |accounts| && k != fromId - 1 && (dest.None? || k != dest.value - 1)
    ensures |SettledAccounts(accounts, fromId, dest, amount)| == |accounts|
    ensures SettledAccounts(accounts, fromId, dest, amount)[k] == accounts[k]
  {
  }

  /** A transfer to one's own account, by its own number, changes no balance. */
  lemma SelfTransferChangesNoBalance(accounts: seq<Account>, fromId: int, amount: int)
    requires HasAccount(accounts, fromId)
    ensures SettledAccounts(accounts, fromId, Some(fromId), amount) == accounts
  {
    AdjustedCancels(accounts, fromId, amount);
  }

  /** A settled transfer keeps the accounts table valid: the debit never drives a balance below 0. */
  lemma SettlementAccountsValid(accounts: seq<Account>, holderCount: int, fromId: int, dest: Option<int>, amount: int)
    requires AccountsValid(accounts, holderCount) && amount > 0
    requires HasAccount(accounts, fromId) && (dest.Some? ==> HasAccount(accounts, dest.value))
    requires accounts[fromId - 1].balance >= amount
    ensures AccountsValid(SettledAccounts(accounts, fromId, dest, amount), holderCount)
  {
    if dest.Some? {
      AdjustedTwiceValid(accounts, holderCount, fromId, amount, dest.value, amount);
    } else {
      AdjustedValid(accounts, holderCount, fromId, -amount);
    }
  }

  /** A settled transfer keeps the transactions table valid: fresh ids, the next row ids, valid rows. */
  lemma SettlementTransactionsValid(accounts: seq<Account>, txns: seq<Transaction>, holderCount: int, routingNumber: string,
                                    request: TransferRequest, outgoingId: string, incomingId: string, now: int)
    requires AccountsValid(accounts, holderCount) && TransactionsValid(txns, |accounts|)
    requires |routingNumber| <= RoutingNumberMaxLength && ValidTransferRequest(request)
    requires HasAccount(accounts, request.fromAccountId)
    requires FreshTransactionId(txns, outgoingId) && FreshTransactionId(txns, incomingId) && outgoingId != incomingId
    ensures TransactionsValid(Settlement(accounts, txns, routingNumber, request, outgoingId, incomingId, now).transactions, |accounts|)
  {
    var fromId := request.fromAccountId;
    var dest := InternalDestination(accounts, routingNumber, request);
    if dest.None? {
      AppendTransactionValid(txns, |accounts|, OutgoingRecord(|txns| + 1, outgoingId, request, now));
    } else {
      var incoming := IncomingRecord(|txns| + 1, incomingId, dest.value, routingNumber,
                                     accounts[fromId - 1].number, request.amount, now);
      var outgoing := OutgoingRecord(|txns| + 2, outgoingId, request, now);
      AppendTransactionValid(txns, |accounts|, incoming);
      AppendTransactionValid(txns + [incoming], |accounts|, outgoing);
      assert txns + [incoming] + [outgoing] == txns + [incoming, outgoing];
    }
  }

  /** create_transfer: the two checks, the funds check, then the settlement in one commit. */
  method CreateTransfer(db: Database, userId: int, request: TransferRequest,
                        outgoingId: string, incomingId: string, now: int)
    returns (r: Result<Transaction>)
    requires db.Valid() && ValidTransferRequest(request)
    requires FreshTransactionId(db.transactions, outgoingId) && FreshTransactionId(db.transactions, incomingId)
    requires outgoingId != incomingId
    modifies db
    ensures db.Valid()
    ensures db.holders == old(db.holders) && db.cards == old(db.cards)
    ensures r.Err? ==> db.accounts == old(db.accounts) && db.transactions == old(db.transactions)
    ensures var e := CheckAccess(old(db.accounts), userId, request.fromAccountId,
                                 Some(SourceNotFoundMessage), SourceAccessDeniedMessage);
      e.Some? ==> r == Err(e.value)
    ensures var e := CheckAccess(old(db.accounts), userId, request.fromAccountId,
                                 Some(SourceNotFoundMessage), SourceAccessDeniedMessage);
      e.None? && old(db.accounts)[request.fromAccountId - 1].balance < request.amount ==>
        r == Err(Raise(InsufficientFunds, None))
    ensures r.Ok? <==> HasAccount(old(db.accounts), request.fromAccountId)
                       && old(db.accounts)[request.fromAccountId - 1].holderId == userId
                       && old(db.accounts)[request.fromAccountId - 1].balance >= request.amount
    ensures r.Ok? ==>
      var p := Settlement(old(db.accounts), old(db.transactions), db.routingNumber, request, outgoingId, incomingId, now);
      r.value == p.returned && db.accounts == p.accounts && db.transactions == p.transactions
  {
    var denied := CheckAccess(db.accounts, userId, request.fromAccountId,
                              Some(SourceNotFoundMessage), SourceAccessDeniedMessage);
    if denied.Some? {
      return Err(denied.value);
    }
    if db.accounts[request.fromAccountId - 1].balance < request.amount {
      return Err(Raise(InsufficientFunds, None));
    }
    var p := Settlement(db.accounts, db.transactions, db.routingNumber, request, outgoingId, incomingId, now);
    SettlementAccountsValid(db.accounts, |db.holders|, request.fromAccountId,
                            InternalDestination(db.accounts, db.routingNumber, request), request.amount);
    SettlementTransactionsValid(db.accounts, db.transactions, |db.holders|, db.routingNumber, request, outgoingId, incomingId, now);
    db.accounts, db.transactions := p.accounts, p.transactions;
    return Ok(p.returned);
  }

  /** `if account_id:`: None and 0 select no single account. */
  predicate Selects(accountId: Option<int>) {
    accountId.Some? && accountId.value != 0
  }

  /** The rows get_transactions selects, before ordering. */
  function Selected(accounts: seq<Account>, txns: seq<Transaction>, userId: int, accountId: Option<int>): seq<Transaction> {
    var owned := OwnedAccountIds(accounts, userId);
    Seqs.Filter(txns, (t: Transaction) => t.accountId in owned && (Selects(accountId) ==> t.accountId == accountId.value))
  }

  /** get_transactions: the caller's rows, or one of their accounts' rows, newest first. */
  function GetTransactions(accounts: seq<Account>, txns: seq<Transaction>, userId: int, accountId: Option<int>)
    : (r: Result<seq<Transaction>>)
    ensures r.Err? <==> Selects(accountId) && accountId.value !in OwnedAccountIds(accounts, userId)
    ensures r.Err? ==> r.error == Raise(Unauthorized, Some(AccessDeniedMessage))
    ensures r.Ok? ==> forall t :: t in r.value <==>
      t in txns && (exists i | 0 <= i < |accounts| :: accounts[i].id == t.accountId && accounts[i].holderId == userId)
      && (Selects(accountId) ==> t.accountId == accountId.value)
    ensures r.Ok? ==> multiset(r.value) == multiset(Selected(accounts, txns, userId, accountId))
    ensures r.Ok? ==> Seqs.Descending(r.value, (t: Transaction) => t.createdAt)
  {
    var owned := OwnedAccountIds(accounts, userId);
    if Selects(accountId) && accountId.value !in owned then
      Err(Raise(Unauthorized, Some(AccessDeniedMessage)))
    else
      var sorted := Seqs.SortDescending(Selected(accounts, txns, userId, accountId), (t: Transaction) => t.createdAt);
      Seqs.SortedMembers(Selected(accounts, txns, userId, accountId), (t: Transaction) => t.createdAt);
      Ok(sorted)
  }
}
