/**
 * The business rules of the ledger service, stated as functions on the
 * store's contents: each gives what an operation returns (or raises) and
 * the store it leaves behind. The service class is proved to behave as
 * these functions say; the lemmas here state what the operations promise.
 */
module Ledger {
  import opened Model
  import opened Repository
  import Mapper

  /** The service's three domain failures, with the datum each message names. */
  datatype LedgerError =
    | AccountAlreadyExist(userId: string)
    | AccountNotExists(accountId: Uuid)
    | InsufficientBalance(accountId: Uuid)

  /** A returned value or a raised failure. */
  datatype Result<T> = Success(value: T) | Failure(error: LedgerError)

  /** What one operation returns or raises, and the store after it. */
  datatype Step<T> = Step(result: Result<T>, store: Storage)

  /** Fetch a stored record, failing when the id is absent. */
  ghost function Lookup(s: Storage, accountId: Uuid): Result<Account>
  {
    if accountId in s then Success(s[accountId]) else Failure(AccountNotExists(accountId))
  }

  /** Open an account under the generated id unless the owner already has one. */
  ghost function CreateAccount(s: Storage, req: CreateAccountRequest, accountId: Uuid): Step<Uuid>
  {
    if HasOwner(s, req.userId) then Step(Failure(AccountAlreadyExist(req.userId)), s)
    else
      var account := Mapper.AccountFrom(req, accountId);
      Step(Success(accountId), s[account.id := account])
  }

  /** The view of one account. */
  ghost function GetAccount(s: Storage, accountId: Uuid): Result<AccountResponse>
  {
    match Lookup(s, accountId)
    case Failure(e) => Failure(e)
    case Success(account) => Success(Mapper.ResponseFrom(account))
  }

  /** The views of all stored accounts. */
  ghost function GetAllAccounts(s: Storage): set<AccountResponse>
  {
    Mapper.Views(s.Values)
  }

  /** Close an existing account. */
  ghost function DeleteAccount(s: Storage, accountId: Uuid): Step<()>
  {
    match Lookup(s, accountId)
    case Failure(e) => Step(Failure(e), s)
    case Success(account) => Step(Success(()), s - {account.id})
  }

  /** Close every account. */
  ghost function DeleteAllAccounts(s: Storage): Step<()>
  {
    Step(Success(()), map[])
  }

  /**
   * Move `req.amount` from one account to another. Both ids are looked up
   * before anything is written. The two records are one object when the
   * ids coincide, so the credit is then applied to the already debited
   * record, and the pair is written back in the order debit, credit.
   */
  ghost function TransferAmount(s: Storage, req: TransferMoneyRequest): Step<()>
  {
    match Lookup(s, req.fromAccount)
    case Failure(e) => Step(Failure(e), s)
    case Success(from) =>
      match Lookup(s, req.toAccount)
      case Failure(e) => Step(Failure(e), s)
      case Success(to) =>
        if from.balance < req.amount then Step(Failure(InsufficientBalance(req.fromAccount)), s)
        else
          var debited := from.(balance := from.balance - req.amount);
          var target := if req.toAccount == req.fromAccount then debited else to;
          var credited := target.(balance := target.balance + req.amount);
          Step(Success(()), PutAll(s, [debited, credited]))
  }

  /** Take `req.amount` out of an account that holds at least that much. */
  ghost function WithDrawMoney(s: Storage, req: WithDrawMoneyRequest): Step<()>
  {
    match Lookup(s, req.accountId)
    case Failure(e) => Step(Failure(e), s)
    case Success(account) =>
      if account.balance < req.amount then Step(Failure(InsufficientBalance(req.accountId)), s)
      else
        var updated := account.(balance := account.balance - req.amount);
        Step(Success(()), s[updated.id := updated])
  }

  /** Add `req.amount` to an account. */
  ghost function DepositMoney(s: Storage, req: DepositMoneyRequest): Step<()>
  {
    match Lookup(s, req.accountId)
    case Failure(e) => Step(Failure(e), s)
    case Success(account) =>
      var updated := account.(balance := account.balance + req.amount);
      Step(Success(()), s[updated.id := updated])
  }

  // ---------------------------------------------------------------------
  // Invariants of the store

  /** At most one account per owner. */
  ghost predicate OwnersUnique(s: Storage)
  {
    forall k1, k2 :: k1 in s && k2 in s && s[k1].userId == s[k2].userId ==> k1 == k2
  }

  /** What the service keeps true of the store. */
  ghost predicate Consistent(s: Storage)
  {
    KeysMatch(s) && OwnersUnique(s)
  }

  /** No account is overdrawn. */
  ghost predicate NonNegative(s: Storage)
  {
    forall k :: k in s ==> s[k].balance >= 0
  }

  /** `t` holds some of the accounts of `s`, each with its owner unchanged. */
  ghost predicate OwnersKept(s: Storage, t: Storage)
  {
    t.Keys <= s.Keys && forall k :: k in t ==> t[k].userId == s[k].userId
  }

  /** The sum of all balances. */
  ghost function Total(s: Storage): int
    decreases |s|
  {
    if s == map[] then 0
    else
      var k :| k in s;
      assert (s - {k}).Keys == s.Keys - {k};
      s[k].balance + Total(s - {k})
  }

  // ---------------------------------------------------------------------
  // Helper facts

  lemma PutAllPair(m: Storage, a: Account, b: Account)
    ensures PutAll(m, [a, b]) == m[a.id := a][b.id := b]
  {
    assert [a, b][1..] == [b];
    assert PutAll(m, [a, b]) == PutAll(m[a.id := a], [b]);
    assert [b][1..] == [];
  }

  lemma OwnersKeptPreservesUnique(s: Storage, t: Storage)
    requires OwnersUnique(s) && OwnersKept(s, t)
    ensures OwnersUnique(t)
  {
  }

  /** The total is the balance of any one account plus the total of the rest. */
  lemma {:induction false} TotalRemove(s: Storage, k: Uuid)
    requires k in s
    ensures Total(s) == s[k].balance + Total(s - {k})
    decreases |s|
  {
    var j :| j in s && Total(s) == s[j].balance + Total(s - {j});
    if j != k {
      assert (s - {j}).Keys == s.Keys - {j};
      assert (s - {k}).Keys == s.Keys - {k};
      TotalRemove(s - {j}, k);
      TotalRemove(s - {k}, j);
      assert s - {j} - {k} == s - {k} - {j};
    }
  }

  /** Replacing one stored record changes the total by the change in its balance. */
  lemma TotalUpdate(s: Storage, k: Uuid, a: Account)
    requires k in s
    ensures Total(s[k := a]) == Total(s) - s[k].balance + a.balance
  {
    TotalRemove(s, k);
    TotalRemove(s[k := a], k);
    assert s[k := a] - {k} == s - {k};
  }

  // ---------------------------------------------------------------------
  // Account creation

  /** Creation fails exactly when the owner already has an account, and then changes nothing. */
  lemma CreateAccountRejectsDuplicateOwner(s: Storage, req: CreateAccountRequest, accountId: Uuid)
    ensures CreateAccount(s, req, accountId).result.Failure? <==> HasOwner(s, req.userId)
    ensures HasOwner(s, req.userId) ==>
      CreateAccount(s, req, accountId) == Step(Failure(AccountAlreadyExist(req.userId)), s)
  {
  }

  /** A successful creation returns the fresh id, files the request's record under it and touches nothing else. */
  lemma CreateAccountStoresRecord(s: Storage, req: CreateAccountRequest, accountId: Uuid)
    requires accountId !in s
    requires !HasOwner(s, req.userId)
    ensures CreateAccount(s, req, accountId).result == Success(accountId)
    ensures CreateAccount(s, req, accountId).store.Keys == s.Keys + {accountId}
    ensures CreateAccount(s, req, accountId).store[accountId]
         == Account(accountId, req.userId, req.balance, req.currency)
    ensures forall k :: k in s ==> CreateAccount(s, req, accountId).store[k] == s[k]
  {
  }

  /** Creation keeps every record filed under its own id and at most one account per owner. */
  lemma CreateAccountKeepsConsistent(s: Storage, req: CreateAccountRequest, accountId: Uuid)
    requires Consistent(s)
    ensures Consistent(CreateAccount(s, req, accountId).store)
  {
  }

  /** Once an owner's account is created, a second creation for that owner fails. */
  lemma CreateAccountTwiceFails(s: Storage, req: CreateAccountRequest, id1: Uuid, id2: Uuid)
    requires CreateAccount(s, req, id1).result.Success?
    ensures CreateAccount(CreateAccount(s, req, id1).store, req, id2).result
         == Failure(AccountAlreadyExist(req.userId))
  {
    assert CreateAccount(s, req, id1).store[id1].userId == req.userId;
  }

  /** Reading back a freshly created account gives its id and the request's owner, balance and currency. */
  lemma CreateThenGetRoundTrip(s: Storage, req: CreateAccountRequest, accountId: Uuid)
    requires !HasOwner(s, req.userId)
    ensures GetAccount(CreateAccount(s, req, accountId).store, accountId)
         == Success(AccountResponse(accountId, req.userId, req.balance, req.currency))
  {
  }

  // ---------------------------------------------------------------------
  // Unknown ids

  /** Every operation on an unknown id fails with AccountNotExists for that id and writes nothing. */
  lemma UnknownAccountFails(s: Storage, accountId: Uuid, amount: Money)
    requires accountId !in s
    ensures GetAccount(s, accountId) == Failure(AccountNotExists(accountId))
    ensures DeleteAccount(s, accountId) == Step(Failure(AccountNotExists(accountId)), s)
    ensures DepositMoney(s, DepositMoneyRequest(accountId, amount))
         == Step(Failure(AccountNotExists(accountId)), s)
    ensures WithDrawMoney(s, WithDrawMoneyRequest(accountId, amount))
         == Step(Failure(AccountNotExists(accountId)), s)
  {
  }

  /** A transfer checks the source first, then the destination, and writes nothing if either is unknown. */
  lemma TransferUnknownAccountFails(s: Storage, req: TransferMoneyRequest)
    requires req.fromAccount !in s || req.toAccount !in s
    ensures TransferAmount(s, req).store == s
    ensures req.fromAccount !in s ==>
      TransferAmount(s, req).result == Failure(AccountNotExists(req.fromAccount))
    ensures req.fromAccount in s ==>
      TransferAmount(s, req).result == Failure(AccountNotExists(req.toAccount))
  {
  }

  // ---------------------------------------------------------------------
  // Reads and deletion

  /** The view of a stored account; there is no other outcome for a known id. */
  lemma GetAccountOfKnownId(s: Storage, accountId: Uuid)
    requires KeysMatch(s) && accountId in s
    ensures GetAccount(s, accountId)
         == Success(AccountResponse(accountId, s[accountId].userId, s[accountId].balance, s[accountId].currencyCode))
  {
  }

  /** There is one view per stored account, and each view is that of a stored account. */
  lemma GetAllAccountsOnePerAccount(s: Storage)
    requires KeysMatch(s)
    ensures |GetAllAccounts(s)| == |s|
    ensures forall k :: k in s ==> Mapper.ResponseFrom(s[k]) in GetAllAccounts(s)
    ensures forall v :: v in GetAllAccounts(s) ==>
      v.accountId in s && Mapper.ResponseFrom(s[v.accountId]) == v
  {
    ValuesCardinality(s);
    Mapper.ViewsCardinality(s.Values);
  }

  /** Deleting a known id removes exactly that entry. */
  lemma DeleteAccountRemovesOnlyIt(s: Storage, accountId: Uuid)
    requires KeysMatch(s) && accountId in s
    ensures DeleteAccount(s, accountId) == Step(Success(()), s - {accountId})
  {
  }

  /** After deleting everything there are no views and no owner has an account. */
  lemma DeleteAllAccountsEmpties(s: Storage, userId: string)
    ensures DeleteAllAccounts(s).store == map[]
    ensures GetAllAccounts(DeleteAllAccounts(s).store) == {}
    ensures !HasOwner(DeleteAllAccounts(s).store, userId)
  {
  }

  // ---------------------------------------------------------------------
  // Balance updates

  /** A deposit adds the amount to that account's balance and changes nothing else. */
  lemma DepositAddsAmount(s: Storage, req: DepositMoneyRequest)
    requires KeysMatch(s) && req.accountId in s
    ensures DepositMoney(s, req)
         == Step(Success(()), s[req.accountId := s[req.accountId].(balance := s[req.accountId].balance + req.amount)])
    ensures Total(DepositMoney(s, req).store) == Total(s) + req.amount
  {
    TotalUpdate(s, req.accountId, s[req.accountId].(balance := s[req.accountId].balance + req.amount));
  }

  /** A withdrawal fails exactly when the balance is below the amount, and then changes nothing. */
  lemma WithDrawRejectsOverdraft(s: Storage, req: WithDrawMoneyRequest)
    requires req.accountId in s
    ensures WithDrawMoney(s, req).result.Failure? <==> s[req.accountId].balance < req.amount
    ensures s[req.accountId].balance < req.amount ==>
      WithDrawMoney(s, req) == Step(Failure(InsufficientBalance(req.accountId)), s)
  {
  }

  /** A permitted withdrawal subtracts the amount, leaves the account non-negative and changes nothing else. */
  lemma WithDrawSubtractsAmount(s: Storage, req: WithDrawMoneyRequest)
    requires KeysMatch(s) && req.accountId in s
    requires s[req.accountId].balance >= req.amount
    ensures WithDrawMoney(s, req)
         == Step(Success(()), s[req.accountId := s[req.accountId].(balance := s[req.accountId].balance - req.amount)])
    ensures WithDrawMoney(s, req).store[req.accountId].balance >= 0
    ensures Total(WithDrawMoney(s, req).store) == Total(s) - req.amount
  {
    TotalUpdate(s, req.accountId, s[req.accountId].(balance := s[req.accountId].balance - req.amount));
  }

  /** A transfer whose source holds less than the amount fails and changes nothing. */
  lemma TransferRejectsOverdraft(s: Storage, req: TransferMoneyRequest)
    requires req.fromAccount in s && req.toAccount in s
    ensures TransferAmount(s, req).result.Failure? <==> s[req.fromAccount].balance < req.amount
    ensures s[req.fromAccount].balance < req.amount ==>
      TransferAmount(s, req) == Step(Failure(InsufficientBalance(req.fromAccount)), s)
  {
  }

  /**
   * A transfer between two distinct accounts debits one and credits the
   * other by the amount, keeps their combined balance, and changes no
   * other account.
   */
  lemma TransferMovesAmount(s: Storage, req: TransferMoneyRequest)
    requires KeysMatch(s)
    requires req.fromAccount in s && req.toAccount in s && req.fromAccount != req.toAccount
    requires s[req.fromAccount].balance >= req.amount
    ensures TransferAmount(s, req) == Step(Success(()),
      s[req.fromAccount := s[req.fromAccount].(balance := s[req.fromAccount].balance - req.amount)]
       [req.toAccount := s[req.toAccount].(balance := s[req.toAccount].balance + req.amount)])
    ensures TransferAmount(s, req).store[req.fromAccount].balance
          + TransferAmount(s, req).store[req.toAccount].balance
         == s[req.fromAccount].balance + s[req.toAccount].balance
  {
    var from, to := s[req.fromAccount], s[req.toAccount];
    PutAllPair(s, from.(balance := from.balance - req.amount), to.(balance := to.balance + req.amount));
  }

  /** A transfer between two distinct accounts keeps the sum of all balances. */
  lemma TransferKeepsTotal(s: Storage, req: TransferMoneyRequest)
    requires KeysMatch(s)
    requires req.fromAccount in s && req.toAccount in s && req.fromAccount != req.toAccount
    requires s[req.fromAccount].balance >= req.amount
    ensures Total(TransferAmount(s, req).store) == Total(s)
  {
    var from, to := s[req.fromAccount], s[req.toAccount];
    var debited := from.(balance := from.balance - req.amount);
    var credited := to.(balance := to.balance + req.amount);
    TransferMovesAmount(s, req);
    TotalUpdate(s, req.fromAccount, debited);
    TotalUpdate(s[req.fromAccount := debited], req.toAccount, credited);
  }

  /** A permitted transfer from an account to itself leaves the store as it was. */
  lemma SelfTransferChangesNothing(s: Storage, req: TransferMoneyRequest)
    requires KeysMatch(s)
    requires req.fromAccount in s && req.toAccount == req.fromAccount
    requires s[req.fromAccount].balance >= req.amount
    ensures TransferAmount(s, req) == Step(Success(()), s)
  {
    var from := s[req.fromAccount];
    var debited := from.(balance := from.balance - req.amount);
    var credited := debited.(balance := debited.balance + req.amount);
    PutAllPair(s, debited, credited);
    assert credited == from;
  }

  // ---------------------------------------------------------------------
  // Invariants across every sequence of mutations

  /** A mutating call on the service. */
  datatype Command =
    | Create(req: CreateAccountRequest, accountId: Uuid)
    | Delete(accountId: Uuid)
    | DeleteAll
    | Transfer(transfer: TransferMoneyRequest)
    | WithDraw(withdrawal: WithDrawMoneyRequest)
    | Deposit(deposit: DepositMoneyRequest)

  /** The store after one mutating call, whether it succeeds or fails. */
  ghost function Apply(s: Storage, c: Command): Storage
  {
    match c
    case Create(req, accountId) => CreateAccount(s, req, accountId).store
    case Delete(accountId) => DeleteAccount(s, accountId).store
    case DeleteAll => DeleteAllAccounts(s).store
    case Transfer(req) => TransferAmount(s, req).store
    case WithDraw(req) => WithDrawMoney(s, req).store
    case Deposit(req) => DepositMoney(s, req).store
  }

  /** The store after a serialised sequence of mutating calls. */
  ghost function Run(s: Storage, cs: seq<Command>): Storage
    decreases |cs|
  {
    if cs == [] then s else Run(Apply(s, cs[0]), cs[1..])
  }

  /** No mutating call other than a create changes an owner or adds an account. */
  lemma ApplyKeepsOwners(s: Storage, c: Command)
    requires KeysMatch(s) && !c.Create?
    ensures OwnersKept(s, Apply(s, c))
    ensures KeysMatch(Apply(s, c))
  {
    match c
    case Transfer(req) =>
      var t := TransferAmount(s, req);
      if t.result.Success? {
        if req.fromAccount == req.toAccount {
          SelfTransferChangesNothing(s, req);
        } else {
          TransferMovesAmount(s, req);
        }
      }
    case WithDraw(req) =>
      if WithDrawMoney(s, req).result.Success? { WithDrawSubtractsAmount(s, req); }
    case Deposit(req) =>
      if req.accountId in s { DepositAddsAmount(s, req); }
    case Delete(accountId) =>
    case DeleteAll =>
  }

  /** Every mutating call keeps the store consistent. */
  lemma ApplyKeepsConsistent(s: Storage, c: Command)
    requires Consistent(s)
    ensures Consistent(Apply(s, c))
  {
    if c.Create? {
      CreateAccountKeepsConsistent(s, c.req, c.accountId);
    } else {
      ApplyKeepsOwners(s, c);
      OwnersKeptPreservesUnique(s, Apply(s, c));
    }
  }

  /** Any serialised sequence of mutating calls keeps at most one account per owner. */
  lemma {:induction false} RunKeepsConsistent(s: Storage, cs: seq<Command>)
    requires Consistent(s)
    ensures Consistent(Run(s, cs))
    decreases |cs|
  {
    if cs != [] {
      ApplyKeepsConsistent(s, cs[0]);
      RunKeepsConsistent(Apply(s, cs[0]), cs[1..]);
    }
  }

  /** The calls whose amounts keep balances non-negative: withdrawals need no condition. */
  ghost predicate AmountsNonNegative(c: Command)
  {
    match c
    case Create(req, _) => req.balance >= 0
    case Transfer(req) => req.amount >= 0
    case Deposit(req) => req.amount >= 0
    case _ => true
  }

  /** One call with a non-negative amount never overdraws an account. */
  lemma ApplyKeepsNonNegative(s: Storage, c: Command)
    requires NonNegative(s) && AmountsNonNegative(c)
    ensures NonNegative(Apply(s, c))
  {
    match c
    case Transfer(req) =>
      var t := TransferAmount(s, req);
      if t.result.Success? {
        var from := s[req.fromAccount];
        var debited := from.(balance := from.balance - req.amount);
        var target := if req.toAccount == req.fromAccount then debited else s[req.toAccount];
        PutAllPair(s, debited, target.(balance := target.balance + req.amount));
      }
    case _ =>
  }

  /** No serialised sequence of calls with non-negative amounts overdraws an account. */
  lemma {:induction false} RunKeepsNonNegative(s: Storage, cs: seq<Command>)
    requires NonNegative(s)
    requires forall i :: 0 <= i < |cs| ==> AmountsNonNegative(cs[i])
    ensures NonNegative(Run(s, cs))
    decreases |cs|
  {
    if cs != [] {
      ApplyKeepsNonNegative(s, cs[0]);
      RunKeepsNonNegative(Apply(s, cs[0]), cs[1..]);
    }
  }

  /** Without amount validation a deposit of a negative amount overdraws an account. */
  lemma NegativeDepositOverdraws(id: Uuid, c: Currency)
    ensures NonNegative(map[id := Account(id, "u", 10, c)])
    ensures !NonNegative(DepositMoney(map[id := Account(id, "u", 10, c)], DepositMoneyRequest(id, -20)).store)
  {
    var s := map[id := Account(id, "u", 10, c)];
    assert DepositMoney(s, DepositMoneyRequest(id, -20)).store[id].balance == -10;
  }
}
