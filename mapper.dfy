/**
 * Field-copying projections between a create request, the stored account
 * and the account view. Neither projection drops or alters a field, which
 * the lemmas below state as copy, round-trip and injectivity facts.
 */
module Mapper {
  import opened Model

  /** The account built for a create request under the generated id. */
  function AccountFrom(req: CreateAccountRequest, accountId: Uuid): Account
  {
    Account(accountId, req.userId, req.balance, req.currency)
  }

  /** The view of a stored account. */
  function ResponseFrom(account: Account): AccountResponse
  {
    AccountResponse(account.id, account.userId, account.balance, account.currencyCode)
  }

  /** The new account carries the given id and the request's owner, balance and currency unchanged. */
  lemma AccountFromCopiesRequest(req: CreateAccountRequest, accountId: Uuid)
    ensures AccountFrom(req, accountId).id == accountId
    ensures AccountFrom(req, accountId).userId == req.userId
    ensures AccountFrom(req, accountId).balance == req.balance
    ensures AccountFrom(req, accountId).currencyCode == req.currency
  {
  }

  /** The view copies id to accountId, owner, balance, and currencyCode to currency. */
  lemma ResponseFromCopiesAccount(account: Account)
    ensures ResponseFrom(account).accountId == account.id
    ensures ResponseFrom(account).userId == account.userId
    ensures ResponseFrom(account).balance == account.balance
    ensures ResponseFrom(account).currency == account.currencyCode
  {
  }

  /** Creating and then viewing gives back exactly the id and the request's fields. */
  lemma CreateThenViewRoundTrip(req: CreateAccountRequest, accountId: Uuid)
    ensures ResponseFrom(AccountFrom(req, accountId))
         == AccountResponse(accountId, req.userId, req.balance, req.currency)
  {
  }

  /** Two accounts have equal views exactly when they are equal field by field. */
  lemma ResponseFromInjective(a: Account, b: Account)
    ensures ResponseFrom(a) == ResponseFrom(b) <==> a == b
  {
  }

  /** Two (request, id) pairs build equal accounts exactly when the pairs are equal. */
  lemma AccountFromInjective(r1: CreateAccountRequest, id1: Uuid, r2: CreateAccountRequest, id2: Uuid)
    ensures AccountFrom(r1, id1) == AccountFrom(r2, id2) <==> r1 == r2 && id1 == id2
  {
  }

  /** The views of a set of accounts, one per account. */
  function Views(accounts: set<Account>): set<AccountResponse>
  {
    set a | a in accounts :: ResponseFrom(a)
  }

  /** Because viewing is injective, a set of accounts has as many views as accounts. */
  lemma {:induction false} ViewsCardinality(accounts: set<Account>)
    ensures |Views(accounts)| == |accounts|
    decreases |accounts|
  {
    if accounts != {} {
      var a :| a in accounts;
      var rest := accounts - {a};
      ViewsCardinality(rest);
      assert Views(accounts) == Views(rest) + {ResponseFrom(a)};
      assert ResponseFrom(a) !in Views(rest);
    } else {
      assert Views(accounts) == {};
    }
  }
}
