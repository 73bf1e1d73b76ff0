/**
 * app/services/account_service.py: opening an account with a fresh number
 * and looking accounts up for their holder.
 */
module AccountService {
  import opened Wrappers
  import opened Errors
  import opened Records
  import opened Db
  import Generators
  import Seqs

  const AccountNotFoundMessage := "Account not found"

  /**
   * create_account: a new active account of the requested kind for
   * `userId`, with balance 0, the institution's routing number and the first
   * candidate number not yet in use. None when every candidate given is
   * taken, where the source would go on drawing.
   */
  method CreateAccount(db: Database, userId: int, kind: AccountKind, candidates: seq<seq<int>>, now: int)
    returns (r: Option<Account>)
    requires db.Valid() && 0 < userId <= |db.holders|
    requires forall k | 0 <= k < |candidates| ::
      |candidates[k]| == Generators.AccountNumberLength && Generators.AllDigits(candidates[k])
    modifies db
    ensures db.Valid()
    ensures db.transactions == old(db.transactions) && db.holders == old(db.holders) && db.cards == old(db.cards)
    ensures r.None? ==> db.accounts == old(db.accounts)
    ensures r.None? ==>
      forall k | 0 <= k < |candidates| :: NumberTaken(old(db.accounts), Generators.DigitString(candidates[k]))
    ensures r.Some? ==>
      var a := r.value;
      a.id == |old(db.accounts)| + 1 && a.holderId == userId && a.routing == db.routingNumber
      && a.kind == kind && a.balance == 0 && a.active && a.createdAt == now
      && Generators.IsDigitString(a.number, Generators.AccountNumberLength)
      && !NumberTaken(old(db.accounts), a.number)
      && db.accounts == old(db.accounts) + [a]
      && TotalBalance(db.accounts) == TotalBalance(old(db.accounts))
  {
    var number := Generators.GenerateAccountNumber(db, candidates);
    if number.None? {
      return None;
    }
    var account := Account(|db.accounts| + 1, userId, number.value, db.routingNumber, kind,
                           DefaultBalance, DefaultActive, now);
    TotalBalanceAppend(db.accounts, account);
    db.accounts := db.accounts + [account];
    return Some(account);
  }

  /**
   * get_user_accounts: the accounts `userId` holds, in table order, each one
   * as often as the table stores it; all different when the table's rows are.
   */
  function GetUserAccounts(accounts: seq<Account>, userId: int): (r: seq<Account>)
    ensures forall a :: a in r <==> a in accounts && a.holderId == userId
    ensures forall i | 0 <= i < |r| :: r[i].holderId == userId
    ensures forall a :: multiset(r)[a] == if a.holderId == userId then multiset(accounts)[a] else 0
    ensures Seqs.Distinct(accounts) ==> Seqs.Distinct(r)
  {
    var owns := (a: Account) => a.holderId == userId;
    Seqs.FilterCounts(accounts, owns);
    Seqs.FilterDistinct(accounts, owns);
    Seqs.Filter(accounts, owns)
  }

  /** get_account: the stored row, after the existence and ownership checks. */
  function GetAccount(accounts: seq<Account>, accountId: int, userId: int): (r: Result<Account>)
    ensures r.Ok? <==> HasAccount(accounts, accountId) && accounts[accountId - 1].holderId == userId
    ensures !HasAccount(accounts, accountId) ==> r == Err(Raise(NotFound, Some(AccountNotFoundMessage)))
    ensures HasAccount(accounts, accountId) && accounts[accountId - 1].holderId != userId ==>
      r == Err(Raise(Unauthorized, Some(AccessDeniedMessage)))
    ensures r.Ok? ==> r.value == accounts[accountId - 1] && r.value.holderId == userId
    ensures r.Ok? && AccountIdsDense(accounts) ==> r.value.id == accountId
  {
    if !HasAccount(accounts, accountId) then Err(Raise(NotFound, Some(AccountNotFoundMessage)))
    else if accounts[accountId - 1].holderId != userId then Err(Raise(Unauthorized, Some(AccessDeniedMessage)))
    else Ok(accounts[accountId - 1])
  }

  /** An account the service returns is one of the caller's accounts. */
  lemma GetAccountIsListed(accounts: seq<Account>, accountId: int, userId: int)
    requires GetAccount(accounts, accountId, userId).Ok?
    ensures GetAccount(accounts, accountId, userId).value in GetUserAccounts(accounts, userId)
  {
  }
}
