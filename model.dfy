/**
 * The plain records of the ledger: the stored account, the requests the
 * service accepts and the view it hands back. All of them are four-field
 * (or smaller) value types whose equality is field-by-field.
 */
module Model {

  /** An account identifier: the two 64-bit halves of a random UUID. */
  datatype Uuid = Uuid(mostSigBits: bv64, leastSigBits: bv64)

  /** A currency, known only by its ISO 4217 code; it is stored, never converted. */
  datatype Currency = Currency(code: string)

  /** Money is an exact decimal (`BigDecimal`) in the Java service; here an unbounded integer. */
  type Money = int

  /** The one persisted entity: an account owned by `userId`. */
  datatype Account = Account(id: Uuid, userId: string, balance: Money, currencyCode: Currency)

  /** The body of a create request. */
  datatype CreateAccountRequest = CreateAccountRequest(userId: string, balance: Money, currency: Currency)

  /** The body of a deposit request. */
  datatype DepositMoneyRequest = DepositMoneyRequest(accountId: Uuid, amount: Money)

  /** The body of a withdraw request. */
  datatype WithDrawMoneyRequest = WithDrawMoneyRequest(accountId: Uuid, amount: Money)

  /** The body of a transfer request. */
  datatype TransferMoneyRequest = TransferMoneyRequest(fromAccount: Uuid, toAccount: Uuid, amount: Money)

  /** The externally visible view of an account. */
  datatype AccountResponse = AccountResponse(accountId: Uuid, userId: string, balance: Money, currency: Currency)

  /** An absent-or-present value; `None` stands for a null reference. */
  datatype Option<T> = None | Some(value: T)
}
