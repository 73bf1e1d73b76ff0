# invisible-bank-api: a verified model of the banking core

invisible-bank-api is a FastAPI banking back end. Account holders sign up and
log in. They open checking and savings accounts, deposit, withdraw and
transfer money, list their transactions, request statements, and issue
cards. An administrator sees the newest accounts and transactions and the
totals of the whole bank. This project models the services behind those
operations, the records they store, the request constraints checked before
a service runs, the generators of account and card numbers, the field
validators, the exception taxonomy and the CORS setting parser. It also
proves what each of them promises.

Structure of the model:

- The store is one object, `Db.Database`, with four tables held as
  sequences: `accounts`, `transactions`, `holders` and `cards`. Its constant
  `routingNumber` is the institution's routing number from configuration.
  - Primary keys are autoincrement and no service deletes a row, so the row
    with id k sits at index k - 1 of its table. The validity predicate
    `Database.Valid` records this, together with every CHECK, width, foreign
    key and UNIQUE constraint of the schema. The CHECKs that confine a type
    column to a list of names (account, transaction and card types) hold
    by construction, because each of those columns is a datatype.
  - This table form stands in for a map from id to account.
- Each service is a module whose operations take the database as their
  first argument, as the source's static methods take the session.
  - Operations that insert rows or change balances are methods with
    `modifies db`. Each states the complete new state and the error
    raised on every failing path.
  - Queries are functions.
  - The loops in the account-number generator, the card-number generator,
    the statement builder and the admin lists are `while` and `for` loops
    with invariants.
- Money is an integer number of cents: the columns are `Numeric(15, 2)`.
  Timestamps are integer seconds, and the current time is an argument
  `now`.
- Random draws and `uuid4` values are arguments:
  - random digits are given as digit sequences;
  - fresh transaction ids are given with the precondition that the table
    does not hold them yet.
- Three cryptographic collaborators are function values in `Crypto`. Two of
  them carry an assumed law:
  - Fernet encryption: `decrypt(encrypt(x)) == x`;
  - Argon2 hashing: `verify(p, hash(p))`, and every hash fits the
    255-character `password_hash` column.

  The third, JWT minting, has no law: a token is whatever the issuer mints
  from the holder's id and e-mail.
- Raising an exception is an `Err` result carrying the exception class and
  its message. `Errors.StatusCode` gives the HTTP status each class sets.

An internal transfer posts the incoming record before the outgoing one
(`db.add` at app/services/transaction_service.py:169 runs before the one at
171), so the incoming row has the lower id. The model appends the two rows
in that order.

## Model

| member | source | states |
|---|---|---|
| TransactionService.CheckAccess | app/services/transaction_service.py:38-42 | No error exactly when the account exists and the caller holds it. An unknown id gives AccountNotFoundError with the given message, or the default one. Another holder's account gives UnauthorizedError with the given message. |
| TransactionService.CreateDeposit | app/services/transaction_service.py:21-61 | An unknown or foreign account raises the matching error and changes nothing. Success is exactly ownership. On success: exactly one deposit record is appended with this account, amount and description, no peer fields, the next id and the given uuid. That balance rises by `amount`, every other account is unchanged, the total rises by `amount`, and every schema constraint still holds. |
| TransactionService.CreateWithdrawal | app/services/transaction_service.py:64-111 | The ownership errors as for a deposit. A balance below the amount raises InsufficientFundsError with the balance-and-request message and changes nothing. Success is exactly ownership and sufficient funds. On success: one withdrawal record is appended, that balance falls by `amount`, others are unchanged, and the store stays valid, so the balance stays non-negative. |
| TransactionService.InternalDestination | app/services/transaction_service.py:152-157 | The transfer credits an account exactly when the routing number is the institution's and some account has the requested number. That account carries the requested number. |
| TransactionService.SettledAccounts | app/services/transaction_service.py:149-168 | Row by row: the source's balance falls by `amount`, the destination's, if any, rises by `amount`, so a transfer to the source itself nets to zero. Every other row and every other field is unchanged, and the table keeps its length. |
| TransactionService.Settlement | app/services/transaction_service.py:138-176 | The accounts become the settled accounts. The records a transfer appends, field by field, after the unchanged old table. The last one is the returned outgoing record, with the requested peer routing and account numbers. With an internal destination an incoming record comes first: it is on the destination account, its peer fields are the institution's routing number and the source account's number, and its description is "Transfer from <source number>". |
| TransactionService.SettlementConservesTotal | app/services/transaction_service.py:149-169 | A transfer with an internal destination leaves the sum of all balances unchanged. Any other transfer lowers it by exactly `amount`. |
| TransactionService.SettlementTouchesOnlyParties | app/services/transaction_service.py:149-169 | Every account other than the source and the destination keeps its row unchanged. |
| TransactionService.SelfTransferChangesNoBalance | app/services/transaction_service.py:149-168 | A transfer from an account to its own number leaves every balance as it was. |
| TransactionService.SettlementAccountsValid | app/services/transaction_service.py:134-168 | When the source covers the amount, the accounts table still meets every constraint after the transfer, including non-negative balances. |
| TransactionService.SettlementTransactionsValid | app/services/transaction_service.py:138-171 | The appended rows keep the transactions table valid: next ids, positive amounts, column widths, existing accounts and unique uuids. |
| TransactionService.CreateTransfer | app/services/transaction_service.py:114-176 | "Source account not found", "Access denied to source account" and InsufficientFundsError with its default message, each with no change. Success is exactly ownership and funds. On success the store is the settlement and the returned value is the outgoing record. The store stays valid and holders and cards are unchanged. |
| TransactionService.GetTransactions | app/services/transaction_service.py:179-204 | An error exactly when a non-zero account filter names an account the caller does not hold (UnauthorizedError, "Access denied to this account"). Otherwise: exactly the records on the caller's accounts, restricted to the filter when it is non-zero, each as often as stored, newest first. |
| TransactionService.NatString | app/services/transaction_service.py:90-92 | The decimal rendering of a natural number: a non-empty string of ASCII digits whose decimal value is the number. A leading '0' occurs only for zero, which renders as "0" alone. |
| TransactionService.FormatCents | app/services/transaction_service.py:90-92 | A Numeric(15, 2) amount as the message shows it: digits, a '.', then exactly two digits. The integer part read as a decimal, times 100, plus the two fraction digits, is the amount in cents. There is no leading zero except in "0.xx". |
| AccountService.CreateAccount | app/services/account_service.py:17-46 | When a fresh number is drawn: exactly one account is appended with the next id, that holder, the configured routing number, the requested kind, balance 0, active, and a 10-digit number no other account has. The other tables are unchanged, as is the total balance, and the store stays valid. When every candidate is taken, nothing changes. |
| AccountService.GetUserAccounts | app/services/account_service.py:49-62 | Exactly the accounts whose holder is the caller. Each occurs in the result exactly as often as in the table, and none twice when the table has no duplicates. |
| AccountService.GetAccount | app/services/account_service.py:65-89 | An unknown id raises NotFoundError "Account not found". Another holder's account raises UnauthorizedError. Otherwise the stored row is returned unchanged, with the requested id. Success is exactly existence and ownership. |
| AccountService.GetAccountIsListed | app/services/account_service.py:60-89 | An account get_account returns is among those get_user_accounts lists. |
| Generators.DigitString | app/utils/generators.py:20 | A digit draw is rendered as ASCII digits of the same length and values. |
| Generators.GenerateAccountNumber | app/utils/generators.py:8-24 | A returned number is 10 ASCII digits, is held by no account, and is the first candidate not already taken. No number means every candidate is taken. |
| Generators.Doubled | app/utils/generators.py:39-44 | A doubled digit contributes its digit sum, which lies in 0..9. |
| Generators.CheckDigit | app/utils/generators.py:46 | The check digit lies in 0..9 and brings the checksum to a multiple of 10. |
| Generators.LuhnSumAppended | app/utils/generators.py:38-47 | The Luhn sum of Annex B of ISO/IEC 7812-1 over the drawn digits followed by the check digit equals the check digit plus the generator's checksum. |
| Generators.CardNumberIsLuhnValid | app/utils/generators.py:27-49 | A card number is 16 ASCII digits. Its first 15 are the draw in order, its last is the check digit, and it passes the Luhn check. |
| Generators.GenerateCardNumber | app/utils/generators.py:27-49 | The loop computes the card number: 16 digits with the draw as prefix, valid under Luhn. |
| Generators.Digits | app/utils/generators.py:49 | Reading a string of ASCII digits back gives digits that render as that same string. |
| Generators.DigitsOfDigitString | app/utils/generators.py:49 | Rendering digits and reading them back gives the same digits. |
| StatementService.Window | app/services/statement_service.py:40-43 | Exactly the account's records created at or after the period start, each as often as stored, newest first. |
| StatementService.GetUserStatement | app/services/statement_service.py:15-72 | The period runs from `now - days * 86400` to `now`, and `days` defaults to 30. There is one account statement per account of the holder, in table order, each built from that account's window. The total is the sum of the list lengths. The method changes nothing. |
| StatementService.StatementAccountsAreHolders | app/services/statement_service.py:28-30 | Every account statement is of an account held by the caller, and carries that account's id, number and current balance. |
| StatementService.HolderAccountsHaveStatements | app/services/statement_service.py:28-38 | Every account of the caller has its statement. |
| StatementService.StatementPerAccountUnique | app/services/statement_service.py:28-38 | No account has two statements: two statements with the same account id are the same entry. With the previous two rows: exactly one statement per owned account. |
| StatementService.AccountStatementIsWindow | app/services/statement_service.py:40-57 | A statement lists every record of its account inside the period, and nothing else. |
| StatementService.AccountStatementNewestFirst | app/services/statement_service.py:43 | Each account's lines are newest first. |
| StatementService.AccountStatementsSnoc | app/services/statement_service.py:38-63 | Processing one more account appends its statement. |
| StatementService.LineCountSnoc | app/services/statement_service.py:65 | Appending a statement adds its number of lines to the total. |
| CardService.CreateCard | app/services/card_service.py:18-53 | An unknown account raises AccountNotFoundError and another holder's account raises UnauthorizedError, each with no change. Success is exactly ownership. On success: one card is appended with the next id, the requested account and kind, active, storing only the encryption of the generated Luhn number. The other tables are unchanged and the store stays valid. |
| CardService.GetUserCards | app/services/card_service.py:56-81 | An error exactly when a non-zero filter names an account the caller does not hold. Otherwise: exactly the cards on the caller's accounts, restricted to a non-zero filter, each as often as stored. |
| CardService.Last4 | app/services/card_service.py:95-96 | The last four characters: a suffix of length min(4, length). |
| CardService.GetCardResponse | app/services/card_service.py:84-107 | The response copies id, account, kind, flag and time. Its last four are those of the decrypted number. |
| CardService.IssuedCardShowsLastDigits | app/services/card_service.py:39-44 | If decryption inverts encryption, a card issued from a draw shows the last three drawn digits followed by the check digit. |
| AdminService.Newest | app/services/admin_service.py:28-34 | ORDER BY created_at DESC LIMIT n: min(n, rows) stored rows, newest first. |
| AdminService.NewestKeepsRows | app/services/admin_service.py:28-34 | The list takes each row at most as often as stored. With a limit at least the row count it is a permutation of the rows. |
| AdminService.NewestLeavesOutOlder | app/services/admin_service.py:28-34 | A row left out of the list is no newer than any row in it. |
| AdminService.OrEmpty | app/services/admin_service.py:81-83 | A missing value is rendered as "". |
| AdminService.GetRecentAccounts | app/services/admin_service.py:16-49 | One entry per account of the newest `limit`, in that order, joined with its holder's name and e-mail. At most `limit` entries, by creation time descending, and `limit` defaults to 10. Nothing changes. |
| AdminService.GetRecentTransactions | app/services/admin_service.py:52-87 | One entry per transaction of the newest `limit`, joined with its account number and holder name, with its type as the stored name and missing text as "". At most `limit` entries, newest first, and `limit` defaults to 10. Nothing changes. |
| AdminService.SqlSum | app/services/admin_service.py:105 | SQL SUM is NULL exactly over no rows. Otherwise it is the sum of all balances. |
| AdminService.GetDashboardStats | app/services/admin_service.py:90-112 | The three counts are the table sizes. The total balance is the sum of all balances, 0 with no accounts. |
| AdminService.DashboardBalanceNonNegative | app/services/admin_service.py:105 | On a valid store the total balance is non-negative. |
| AuthService.FindHolderByEmail | app/services/auth_service.py:86-88 | The first holder with this e-mail; none exactly when no holder has it. |
| AuthService.NewHolder | app/services/auth_service.py:40-52 | The new holder row: the next id, active, created now. Name, e-mail, date of birth and address are copied, the password is stored as its hash and the SSN as its encryption. Under the hashing law the password verifies against the stored hash. Under the encryption law the stored SSN decrypts to the submitted one. When the request and the hash fit their columns, the row meets the table's String widths. |
| AuthService.AcceptedSignupFits | app/models/account_holder.py:20-29 | A signup request the schema accepts, with an e-mail of at most 254 characters, fits the name, e-mail and address columns. |
| AuthService.TokensFor | app/services/auth_service.py:61-68 | Both tokens are minted by the issuer from the holder's id and e-mail: the access token by the access minter, the refresh token by the refresh minter. The type is "bearer". |
| AuthService.Signup | app/services/auth_service.py:17-68 | A registered e-mail raises ValidationError "Email already registered" and adds no holder. The store stays valid, column widths included. Otherwise exactly one holder is appended. It is active, stores hash(password) and encrypt(ssn), and uses the next id. Its tokens are returned, and no other table changes. |
| AuthService.Login | app/services/auth_service.py:71-107 | Success exactly when a holder has the e-mail, is active and the password verifies. Every failure is AuthenticationError "Invalid email or password". Login reads the store only. |
| AuthService.LoginWithSignupPassword | app/services/auth_service.py:86-95 | An active holder logging in with the password whose hash is stored gets that holder's tokens. |
| AuthService.SignupThenLogin | app/services/auth_service.py:44-55 | After a signup, logging in with its e-mail and password succeeds with the new holder's tokens. |
| Db.FindByNumber | app/services/transaction_service.py:153-155 | The first account with this number; none exactly when no account has it. |
| Db.OwnedAccountIds | app/services/transaction_service.py:192-194 | Exactly the ids of the caller's accounts. |
| Db.Adjusted | app/services/transaction_service.py:54 | `balance += delta` on one account: that balance moves by delta, other rows stay, and the total moves by delta. |
| Db.AdjustedValid | app/models/account.py:38-41 | A balance change that keeps the balance non-negative keeps the accounts table valid. |
| Db.AdjustedTwiceValid | app/models/account.py:38-41 | A covered debit followed by a credit keeps the accounts table valid. |
| Db.AdjustedCancels | app/services/transaction_service.py:149-168 | Debiting and crediting the same account by the same amount restores the table. |
| Db.TotalBalanceUpdate | app/services/admin_service.py:105 | Replacing one row changes the total by the difference of the two balances. |
| Db.TotalBalanceAppend | app/services/account_service.py:41-42 | Appending an account adds its balance to the total. |
| Db.TotalBalanceNonNegative | app/models/account.py:40 | Non-negative balances have a non-negative sum. |
| Db.AppendTransactionValid | app/models/transaction.py:17-42 | A valid record with the next id, an existing account and a fresh uuid keeps the table valid. |
| Db.Database.constructor | app/models/account.py:25-41 | An empty store meets every constraint. |
| Records.ParseAccountKind | app/models/account.py:29-39 | Only "checking" and "savings" are account kinds, and each kind's name reads back. |
| Records.AccountKindNameRoundTrip | app/models/account.py:39 | Every account kind's name parses back to that kind. |
| Records.TransactionKindName | app/models/transaction.py:28-40 | The stored transaction_type is one of the three names check_transaction_type admits, and fits String(20). |
| Records.RoutingDefaultsAgree | app/models/account.py:26 | The routing column default equals the configured routing default. |
| TransactionSchemas.ValidTransferRequest | app/schemas/transaction.py:24-30 | Routing number of exactly 9, account number of 1 to 20, amount > 0, description at most 500. |
| AuthSchemas.NewTokenResponse | app/schemas/auth.py:37-41 | The token type defaults to "bearer". |
| AuthSchemas.SignupErrors | app/schemas/auth.py:9-28 | A field is reported exactly when its bound fails: name 1..255, password at least 8, the SSN validator, the age-18 validator, address 1..500. No report exactly when all hold. |
| AuthSchemas.ValidatorMessage | app/schemas/auth.py:18-28 | Exactly the SSN and date-of-birth fields report their validator's own message: "SSN must be in format XXX-XX-XXXX" and "Must be at least 18 years old". |
| AuthSchemas.FieldError | app/schemas/auth.py:9-28 | A field is listed exactly when its check fails. |
| Validators.ValidateSsnShape | app/utils/validators.py:9-20 | validate_ssn holds exactly for three, two and four digits joined by dashes, optionally followed by one newline. |
| Validators.SsnBodyGroups | app/utils/validators.py:19 | A match splits into the three digit groups. |
| Validators.SsnGroupsAccepted | app/utils/validators.py:19 | Three digit groups joined by dashes match. |
| Validators.FirstIndex | app/utils/validators.py:33 | Index of the first occurrence, or the length. |
| Validators.LastIndex | app/utils/validators.py:33 | Index of the last occurrence, or -1. |
| Validators.EmailBodyHasParts | app/utils/validators.py:33 | Every string the decision procedure accepts splits into a local group, '@', a domain group, '.', and two or more letters. |
| Validators.EmailPartsAccepted | app/utils/validators.py:33 | Every such split is accepted. |
| Validators.EmailBodyMatchesPattern | app/utils/validators.py:33 | The decision procedure accepts exactly the strings the pattern's groups describe. |
| Validators.ValidateEmailShape | app/utils/validators.py:23-34 | validate_email holds exactly for the pattern, optionally followed by one newline. |
| Validators.AgeIsCompletedYears | app/utils/validators.py:48-51 | The computed age is the number of birthdays reached: the n-th anniversary has come exactly when n is at most the age. |
| Validators.AgeOnBirthday | app/utils/validators.py:49-52 | On the exact 18th birthday validate_age already holds. |
| Validators.ValidateAgeMonotone | app/utils/validators.py:37-52 | If validate_age holds for a date of birth, it holds for every earlier one. |
| Errors.StatusCode | app/core/exceptions.py:6-61 | The base exception uses its argument. NotFoundError and its subclass AccountNotFoundError are 404. Every subclass is a 4xx code. |
| Errors.Raise | app/core/exceptions.py:14-61 | A subclass raised without a message uses its default message, and with one uses it. |
| Errors.RaiseBase | app/core/exceptions.py:6-11 | BankAPIException keeps its message, and its status defaults to 400. |
| Errors.StatusCodeTaxonomy | app/core/exceptions.py:9-61 | 401, 403, 404, 422, 400 and 400 class by class, 400 for the base default, and the default messages "Account not found" and "Insufficient funds". |
| Config.Split | app/config.py:48 | str.split: at least one part, none containing the separator. |
| Config.JoinSplit | app/config.py:48 | Joining the parts with the separator gives back the input. |
| Config.SplitLength | app/config.py:48 | One more part than separators. |
| Config.StripLeft | app/config.py:48 | A suffix whose removed prefix is all whitespace and which starts with none. |
| Config.StripRight | app/config.py:48 | A prefix whose removed suffix is all whitespace and which ends with none. |
| Config.Strip | app/config.py:48 | The slice left after removing whitespace from both ends; it starts and ends with no whitespace. |
| Config.StripUnchanged | app/config.py:48 | A string with no whitespace at either end is its own strip. |
| Config.CorsOriginsList | app/config.py:45-48 | Count of ',' plus one origins. Element i is the i-th segment, stripped, with no whitespace at either end and no comma. |
| Config.SplitFirst | app/config.py:48 | Splitting at the first separator. |
| Config.SplitNone | app/config.py:48 | A string without the separator is one part. |
| Config.DefaultCorsOriginsSplit | app/config.py:43 | The default setting has the two origins as its segments. |
| Config.TwoOrigins | app/config.py:48 | Two segments needing no strip are the list. |
| Config.DefaultCorsOriginsList | app/config.py:43-48 | The default yields ["http://localhost:3000", "http://localhost:8080"]. |

## Left out

- HTTP layer: routing, middleware, headers, exception-to-JSON handlers and HTML are outside the services (app/main.py, app/api/v1/endpoints, app/dependencies.py).
- Logging: every `logger` call only writes to a log, so none is modelled.
- Concurrency: each service call is one atomic step ending at its commit. The check-then-write race between parallel requests (balance read at transaction_service.py:89 and 134, written at 104 and 149) is not modelled.
- Cryptography: Argon2, JWT and Fernet are not implemented. They are function values, with the two laws above as preconditions where a proof needs them. Token contents are opaque.
- Randomness: `random.randint` draws and `uuid4` values are arguments. The freshness of a uuid is a precondition, not a probability.
- Clock: `datetime.utcnow` is an argument. The two calls in the statement builder (statement_service.py:32-33) collapse into one `now`, and `date.today()` in validate_age is the argument `today`.
- Generators.GenerateAccountNumber: the source loops until a fresh number appears, with no bound. The model walks a finite candidate list and returns None when all are taken; AccountService.CreateAccount then changes nothing.
- AuthService.Signup: requires the request to fit the account_holders columns (`FitsHolderColumns`) and every hash to fit `password_hash` (`Crypto.HashFits`). The signup schema's max_length bounds and EmailStr's 254-character limit give the first (AuthService.AcceptedSignupFits). The second is assumed of Argon2, whose encoded output has a length fixed by its parameters. A longer value would make the source's commit fail, and the model does not cover that failure.
- AccountService.CreateAccount: requires the holder id to exist. The source leaves a missing holder to the database's foreign-key check, which aborts the commit.
- Floats and formatting: the `float()` conversions and `strftime` calls in the admin and statement outputs are not modelled. Amounts stay integer cents and times stay integer seconds.
- Numeric(15, 2) precision: balances and amounts are unbounded integers in the model. A balance or amount above 9,999,999,999,999.99 (more than 13 integer digits) would make the source's commit fail and change nothing. The modelled operations accept it and store it.
- Decimal scale: the model assumes the two-decimal amounts the Numeric(15, 2) columns hold. It does not model the rounding of request amounts with more decimals.
- TransactionService.CreateWithdrawal: the refusal message renders both amounts with two decimals. Python prints the request amount as the client wrote it, for example "50" rather than "50.00".
- Tie order: the model breaks ties in `created_at` in one fixed order. The database may return tied rows in any order. The order among ties is therefore not part of any contract: the contracts state the descending order, membership, and the row counts or multisets (AdminService.NewestKeepsRows, TransactionService.GetTransactions, StatementService.Window).
- Unordered queries: get_user_accounts, get_user_cards and the statement's account list have no ORDER BY. The model returns table order.
- Validators: Python's `\d` also matches non-ASCII decimal digits; the model reads it as '0'..'9'.
- E-mail fields of the request schemas are pydantic EmailStr, whose library validation is not modelled.
- Request validation runs before the services: the services require valid requests, and AuthSchemas.SignupErrors models the signup check.
- `is_active`: no service except login consults it, so at the service level transacting on an inactive account succeeds, as in the source. The HTTP layer's current-user dependency refuses inactive holders (app/dependencies.py:54). Being HTTP code, it is not modelled.
- AdminService.GetRecentAccounts and AdminService.GetRecentTransactions: `limit` is a natural number. SQL's behaviour for a negative LIMIT is not modelled.
- Configuration: only the CORS origin list and the routing-number default are modelled; environment loading is not.
- app/core/admin_auth.py, app/utils/context.py, app/core/logging_config.py, scripts and the test suite are not part of this model.
- Card and account-holder records are modelled only as the row shapes the services read and write.
