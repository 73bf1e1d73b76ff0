/**
 * app/schemas/transaction.py: the request bodies of deposits, withdrawals and
 * transfers, and the field bounds request validation enforces before a
 * service is called. Amounts are integer cents.
 */
module TransactionSchemas {
  import opened Wrappers
  import opened Records

  datatype DepositRequest = DepositRequest(accountId: int, amount: int, description: Option<string>)

  datatype WithdrawalRequest = WithdrawalRequest(accountId: int, amount: int, description: Option<string>)

  datatype TransferRequest = TransferRequest(
    fromAccountId: int,
    toRoutingNumber: string,
    toAccountNumber: string,
    amount: int,
    description: Option<string>)

  /** `Field(None, max_length=500)` */
  predicate DescriptionOk(description: Option<string>) {
    FitsIn(description, DescriptionMaxLength)
  }

  /** `amount: Decimal = Field(..., gt=0)` and the description bound. */
  predicate ValidDepositRequest(r: DepositRequest) {
    r.amount > 0 && DescriptionOk(r.description)
  }

  predicate ValidWithdrawalRequest(r: WithdrawalRequest) {
    r.amount > 0 && DescriptionOk(r.description)
  }

  /** Also a routing number of exactly 9 characters and an account number of 1 to 20. */
  predicate ValidTransferRequest(r: TransferRequest) {
    |r.toRoutingNumber| == 9 && 1 <= |r.toAccountNumber| <= 20
    && r.amount > 0 && DescriptionOk(r.description)
  }
}
