/**
 * The stored records: app/models/account.py and app/models/transaction.py,
 * with their column widths and CHECK constraints, and the shapes of the
 * account-holder and card rows. Money is an integer number of cents
 * (the columns are Numeric(15, 2)); timestamps are integer seconds.
 */
module Records {
  import opened Wrappers
  import Config
  import Validators

  /** LargeBinary columns. */
  type Bytes = seq<bv8>

  /** check_account_type: 'checking' or 'savings'. */
  datatype AccountKind = Checking | Savings

  /** check_transaction_type: 'deposit', 'withdrawal' or 'transfer'. */
  datatype TransactionKind = Deposit | Withdrawal | Transfer

  /** check_card_type: 'credit' or 'debit'. */
  datatype CardKind = Credit | Debit

  function AccountKindName(k: AccountKind): string {
    match k
    case Checking => "checking"
    case Savings => "savings"
  }

  /** The Literal["checking", "savings"] of an account-creation request. */
  function ParseAccountKind(s: string): (k: Option<AccountKind>)
    ensures k.Some? <==> s in {"checking", "savings"}
    ensures k.Some? ==> AccountKindName(k.value) == s
  {
    if s == "checking" then Some(Checking)
    else if s == "savings" then Some(Savings)
    else None
  }

  lemma AccountKindNameRoundTrip(k: AccountKind)
    ensures ParseAccountKind(AccountKindName(k)) == Some(k)
  {
  }

  /** The transaction_type value stored for a kind: one check_transaction_type admits, within String(20). */
  function TransactionKindName(k: TransactionKind): (name: string)
    ensures name in {"deposit", "withdrawal", "transfer"}
    ensures |name| <= TransactionTypeMaxLength
  {
    match k
    case Deposit => "deposit"
    case Withdrawal => "withdrawal"
    case Transfer => "transfer"
  }

  const AccountNumberMaxLength := 20
  const RoutingNumberMaxLength := 9
  /** The routing_number column default. */
  const AccountRoutingDefault := "123456789"
  /** The balance column default, 0.00. */
  const DefaultBalance := 0
  /** The is_active column default. */
  const DefaultActive := true

  const TransactionIdMaxLength := 36
  const TransactionTypeMaxLength := 20
  const PeerRoutingMaxLength := 9
  const PeerAccountMaxLength := 20
  const DescriptionMaxLength := 500

  /** The account model's routing default is the institution's default routing number. */
  lemma RoutingDefaultsAgree()
    ensures AccountRoutingDefault == Config.DefaultRoutingNumber
  {
  }

  /** A row of the accounts table. */
  datatype Account = Account(
    id: int,
    holderId: int,
    number: string,
    routing: string,
    kind: AccountKind,
    balance: int,
    active: bool,
    createdAt: int)

  /** check_positive_balance and the widths of the two string columns. */
  predicate ValidAccount(a: Account) {
    a.balance >= 0 && |a.number| <= AccountNumberMaxLength && |a.routing| <= RoutingNumberMaxLength
  }

  /** A nullable String(n) column. */
  predicate FitsIn(o: Option<string>, n: nat) {
    o.None? || |o.value| <= n
  }

  /** A row of the transactions table. */
  datatype Transaction = Transaction(
    id: int,
    transactionId: string,
    accountId: int,
    kind: TransactionKind,
    amount: int,
    peerRouting: Option<string>,
    peerAccount: Option<string>,
    description: Option<string>,
    createdAt: int)

  /** check_positive_amount and the widths of the string columns. */
  predicate ValidTransaction(t: Transaction) {
    t.amount > 0 && |t.transactionId| <= TransactionIdMaxLength
    && FitsIn(t.peerRouting, PeerRoutingMaxLength) && FitsIn(t.peerAccount, PeerAccountMaxLength)
    && FitsIn(t.description, DescriptionMaxLength)
  }

  /** A row of the account_holders table. */
  datatype AccountHolder = AccountHolder(
    id: int,
    name: string,
    email: string,
    passwordHash: string,
    ssnEncrypted: Bytes,
    dateOfBirth: Validators.Date,
    mailingAddress: string,
    active: bool,
    createdAt: int)

  const HolderNameMaxLength := 255
  const EmailMaxLength := 255
  const PasswordHashMaxLength := 255
  const MailingAddressMaxLength := 500

  /** The widths of the String columns of account_holders. */
  predicate ValidHolder(h: AccountHolder) {
    |h.name| <= HolderNameMaxLength && |h.email| <= EmailMaxLength
    && |h.passwordHash| <= PasswordHashMaxLength && |h.mailingAddress| <= MailingAddressMaxLength
  }

  /** A row of the cards table. */
  datatype Card = Card(
    id: int,
    accountId: int,
    numberEncrypted: Bytes,
    kind: CardKind,
    active: bool,
    createdAt: int)
}
