# In-memory account ledger, modelled in Dafny

This project models the core of a small money-transfer service: an
in-memory account ledger. It has three parts.

- **Account store** (`repository.dfy`, module `Repository`). A finite map from
  account id to account record. It inserts or replaces by id (`save`), saves a
  list in order (`saveAll`), looks up by id with null for absence, lists all
  records, deletes one id or everything, and answers whether some record has a
  given owner. It enforces no business rule. The class `AccountRepository`
  keeps the map in the field `accountsStorage`, and its methods change that
  field in place. The map-level functions beside it (`PutAll`, `HasOwner`,
  `KeysMatch`) give the meaning of `saveAll`, of the owner query and of the
  store's one structural invariant: every record is filed under its own id.
- **Ledger service** (`service.dfy`, module `Service`, with its business rules
  in `ledger.dfy`, module `Ledger`). The service is the only writer of the
  store. It refuses a second account for the same owner
  (`AccountAlreadyExist`). It fails with `AccountNotExists` on an unknown id.
  It refuses a withdrawal or transfer from an account whose balance is below
  the amount (`InsufficientBalance`). It also performs deposits, withdrawals
  and two-account transfers. Module `Ledger` states each operation as a
  function of the store's contents. A mutating operation (create, delete,
  delete all, transfer, withdraw, deposit) yields a `Step`: the returned value
  or raised failure, and the store afterwards. A read yields a `Result`
  (`GetAccount`, `Lookup`) or a set of views (`GetAllAccounts`), and the owner
  query is the predicate `Repository.HasOwner`. Each method of the class
  `AccountService` is proved to produce exactly what its function or predicate
  gives. The lemmas of `Ledger` state what the operations promise:
  - error cases leave the store unchanged;
  - only the named account changes;
  - a transfer keeps the sum of balances;
  - at most one account per owner, preserved by every sequence of calls;
  - non-negative balances, given non-negative amounts.
- **Mapper** (`mapper.dfy`, module `Mapper`). Field-copying projections from a
  create request plus id to an account, and from an account to its view.
  `model.dfy` (module `Model`) holds the four-field records themselves.

Exceptions become the `Ledger.Result` datatype. A `BigDecimal` amount is an
unbounded `int`. A currency is a value known only by its ISO code. An account
id holds the two 64-bit halves of a UUID. The service serialises every mutation
behind one exclusive lock. So each operation is one sequential method, and
`Ledger.Run` gives the store after any serialised sequence of calls.

The Java code keeps mutable `Account` objects in the map and changes them in
place with `setBalance`. For a transfer from an account to itself, both lookups
return the same object: the debit and then the credit cancel, and the store is
unchanged. `Ledger.TransferAmount` and `Service.AccountService.TransferAmount`
reproduce this explicitly: when the two ids coincide, the credit is applied to
the already-debited record. `Ledger.SelfTransferChangesNothing` proves that the
outcome is an unchanged store.

Three behaviours of the Java service are worth stating plainly:

- the failures are named `AccountNotExists` and `AccountAlreadyExist`, the
  names of the exception classes the service throws;
- the service does not refuse a transfer from an account to itself; its outcome is the one above;
- the code validates no amount. So "balance is never negative" holds only for
  non-negative amounts (`Ledger.RunKeepsNonNegative`, with
  `Ledger.NegativeDepositOverdraws` as the counterexample). Withdrawals keep
  balances non-negative whatever the amount.

## Model

| member | source | states |
|---|---|---|
| Mapper.AccountFromCopiesRequest | src/main/java/com/revolut/interview/mapper/AccountMapper.java:11-18 | the new account has the given id and the request's userId, balance and currency, unchanged |
| Mapper.ResponseFromCopiesAccount | src/main/java/com/revolut/interview/mapper/AccountMapper.java:20-27 | the view copies id to accountId, userId, balance, and currencyCode to currency |
| Mapper.CreateThenViewRoundTrip | src/main/java/com/revolut/interview/mapper/AccountMapper.java:11-27 | the view of the account built from (request, id) is (id, request userId, balance, currency) |
| Mapper.ResponseFromInjective | src/main/java/com/revolut/interview/mapper/AccountMapper.java:20-27 | two accounts have equal views if and only if they are equal field by field |
| Mapper.AccountFromInjective | src/main/java/com/revolut/interview/mapper/AccountMapper.java:11-18 | two (request, id) pairs build equal accounts if and only if the pairs are equal |
| Mapper.ViewsCardinality | src/main/java/com/revolut/interview/service/AccountServiceImpl.java:77-80 | mapping a set of accounts to views yields exactly as many views as accounts |
| Repository.PutAllSnoc | src/main/java/com/revolut/interview/repository/AccountRepositoryImpl.java:24-26 | saving a list and then one more account equals saving the longer list: saveAll is a sequence of saves in list order |
| Repository.PutAllUntouched | src/main/java/com/revolut/interview/repository/AccountRepositoryImpl.java:24-26 | after saveAll, an id that no listed account carries keeps its old entry, or stays absent |
| Repository.PutAllLaterWins | src/main/java/com/revolut/interview/repository/AccountRepositoryImpl.java:24-26 | after saveAll, an id is stored with the last listed account carrying it |
| Repository.SaveIdempotent | src/main/java/com/revolut/interview/repository/AccountRepositoryImpl.java:19-21 | saving the same account twice equals saving it once |
| Repository.PutAllKeysMatch | src/main/java/com/revolut/interview/repository/AccountRepositoryImpl.java:19-26 | saving keeps every record filed under its own id |
| Repository.ValuesCardinality | src/main/java/com/revolut/interview/repository/AccountRepositoryImpl.java:34-36 | when every record is filed under its own id, the stored values are distinct: one per key |
| Repository.AccountRepository.constructor | src/main/java/com/revolut/interview/repository/AccountRepositoryImpl.java:14-16 | a new store is empty and satisfies its invariant |
| Repository.AccountRepository.Save | src/main/java/com/revolut/interview/repository/AccountRepositoryImpl.java:19-21 | the store becomes the old one with `account.id` mapped to `account`; everything else is unchanged |
| Repository.AccountRepository.SaveAll | src/main/java/com/revolut/interview/repository/AccountRepositoryImpl.java:24-26 | the store becomes `PutAll` of the old store and the list; its loop is proved against that function |
| Repository.AccountRepository.GetAccountById | src/main/java/com/revolut/interview/repository/AccountRepositoryImpl.java:29-31 | present if and only if the id is stored, then the stored record, which carries that id; absent (null) otherwise, with no error |
| Repository.AccountRepository.GetAllAccounts | src/main/java/com/revolut/interview/repository/AccountRepositoryImpl.java:34-36 | every stored record is returned, every returned record is the one stored under its id, and there are exactly as many as keys |
| Repository.AccountRepository.DeleteAccount | src/main/java/com/revolut/interview/repository/AccountRepositoryImpl.java:39-41 | removes exactly that key; does nothing when the key is absent |
| Repository.AccountRepository.DeleteAllAccounts | src/main/java/com/revolut/interview/repository/AccountRepositoryImpl.java:44-46 | the store becomes empty |
| Repository.AccountRepository.IsAccountExist | src/main/java/com/revolut/interview/repository/AccountRepositoryImpl.java:49-51 | true if and only if some stored record, under some key, has that owner |
| Ledger.CreateAccountRejectsDuplicateOwner | src/main/java/com/revolut/interview/service/AccountServiceImpl.java:46-48 | creation fails if and only if the owner already has an account; it then fails with AccountAlreadyExist(userId) and leaves the store unchanged |
| Ledger.CreateAccountStoresRecord | src/main/java/com/revolut/interview/service/AccountServiceImpl.java:50-55 | a successful creation returns the fresh id and adds exactly that key, mapped to (id, userId, balance, currency) of the request; no other entry changes |
| Ledger.CreateAccountKeepsConsistent | src/main/java/com/revolut/interview/service/AccountServiceImpl.java:46-55 | creation keeps at most one account per owner and every record under its own id |
| Ledger.CreateAccountTwiceFails | src/test/java/com/revolut/interview/service/AccountServiceTest.java:60-64 | after a successful creation for an owner, a second creation for the same owner fails with AccountAlreadyExist |
| Ledger.CreateThenGetRoundTrip | src/test/java/com/revolut/interview/controller/AccountControllerIntegrationTest.java:55-66 | reading back a created account gives its id and the request's owner, balance and currency |
| Ledger.UnknownAccountFails | src/main/java/com/revolut/interview/service/AccountServiceImpl.java:172-177 | get, delete, deposit and withdraw on an absent id fail with AccountNotExists(id) and leave the store unchanged |
| Ledger.TransferUnknownAccountFails | src/main/java/com/revolut/interview/service/AccountServiceImpl.java:113-114 | a transfer with an absent source fails for the source, else with an absent destination fails for the destination; the store is unchanged |
| Ledger.GetAccountOfKnownId | src/main/java/com/revolut/interview/service/AccountServiceImpl.java:61-70 | for a stored id, getAccount succeeds with that account's id, owner, balance and currency |
| Ledger.GetAllAccountsOnePerAccount | src/main/java/com/revolut/interview/service/AccountServiceImpl.java:73-84 | there are exactly as many views as stored accounts; each stored account's view is present, and each view is that of the account stored under its id |
| Ledger.DeleteAccountRemovesOnlyIt | src/main/java/com/revolut/interview/service/AccountServiceImpl.java:87-96 | deleting a stored id succeeds and removes exactly that entry |
| Ledger.DeleteAllAccountsEmpties | src/main/java/com/revolut/interview/service/AccountServiceImpl.java:98-107 | after deleting all accounts the store is empty, there are no views, and no owner has an account |
| Ledger.DepositAddsAmount | src/main/java/com/revolut/interview/service/AccountServiceImpl.java:148-160 | a deposit succeeds and changes only that account's balance, by +amount (not its id, owner or currency, and no other account); the total grows by the amount |
| Ledger.WithDrawRejectsOverdraft | src/main/java/com/revolut/interview/service/AccountServiceImpl.java:135-139 | on a stored account, a withdrawal fails if and only if balance < amount, then with InsufficientBalance(id) and the store unchanged |
| Ledger.WithDrawSubtractsAmount | src/main/java/com/revolut/interview/service/AccountServiceImpl.java:137-142 | when balance >= amount, only that balance changes, to balance - amount, which is never negative; the total drops by the amount |
| Ledger.TransferRejectsOverdraft | src/main/java/com/revolut/interview/service/AccountServiceImpl.java:113-118 | with both ids stored, a transfer fails if and only if the source balance < amount, then with InsufficientBalance(source) and the store unchanged |
| Ledger.TransferMovesAmount | src/main/java/com/revolut/interview/service/AccountServiceImpl.java:109-128 | between distinct accounts with enough funds: the source is debited and the destination credited by the amount, nothing else changes, and the pair's sum is kept |
| Ledger.TransferKeepsTotal | src/main/java/com/revolut/interview/service/AccountServiceImpl.java:116-124 | between distinct accounts with enough funds, the sum of all balances in the store is kept |
| Ledger.SelfTransferChangesNothing | src/main/java/com/revolut/interview/service/AccountServiceImpl.java:113-124 | a permitted transfer from an account to itself succeeds and leaves the store unchanged (one shared object is debited, then credited) |
| Ledger.ApplyKeepsOwners | src/main/java/com/revolut/interview/service/AccountServiceImpl.java:87-160 | no mutating call other than create adds an account or changes an owner, and each keeps records under their own ids |
| Ledger.ApplyKeepsConsistent | src/main/java/com/revolut/interview/service/AccountServiceImpl.java:42-160 | every mutating call, succeeding or failing, keeps at most one account per owner |
| Ledger.RunKeepsConsistent | src/main/java/com/revolut/interview/service/AccountServiceImpl.java:42-160 | every serialised sequence of mutating calls keeps at most one account per owner |
| Ledger.ApplyKeepsNonNegative | src/main/java/com/revolut/interview/service/AccountServiceImpl.java:109-160 | a call with a non-negative amount never makes a balance negative (a withdrawal never does, whatever its amount) |
| Ledger.RunKeepsNonNegative | src/main/java/com/revolut/interview/service/AccountServiceImpl.java:109-160 | no serialised sequence of calls with non-negative amounts makes a balance negative |
| Ledger.NegativeDepositOverdraws | src/main/java/com/revolut/interview/service/AccountServiceImpl.java:153-154 | since amounts are not validated, depositing -20 into an account holding 10 leaves it at -10 |
| Service.AccountService.constructor | src/main/java/com/revolut/interview/service/AccountServiceImpl.java:36-40 | the service wraps the given store; ids already in it count as issued |
| Service.AccountService.CreateAccount | src/main/java/com/revolut/interview/service/AccountServiceImpl.java:42-59 | result and new store are `Ledger.CreateAccount` of the old store, for an id never issued before; the id becomes issued on success |
| Service.AccountService.GetAccount | src/main/java/com/revolut/interview/service/AccountServiceImpl.java:61-70 | returns `Ledger.GetAccount` of the store |
| Service.AccountService.GetAllAccounts | src/main/java/com/revolut/interview/service/AccountServiceImpl.java:72-84 | returns `Ledger.GetAllAccounts` of the store: one view per stored account |
| Service.AccountService.DeleteAccount | src/main/java/com/revolut/interview/service/AccountServiceImpl.java:86-96 | result and new store are `Ledger.DeleteAccount` of the old store |
| Service.AccountService.DeleteAllAccounts | src/main/java/com/revolut/interview/service/AccountServiceImpl.java:98-107 | the store becomes empty |
| Service.AccountService.TransferAmount | src/main/java/com/revolut/interview/service/AccountServiceImpl.java:109-128 | result and new store are `Ledger.TransferAmount` of the old store |
| Service.AccountService.WithDrawMoney | src/main/java/com/revolut/interview/service/AccountServiceImpl.java:130-146 | result and new store are `Ledger.WithDrawMoney` of the old store |
| Service.AccountService.DepositMoney | src/main/java/com/revolut/interview/service/AccountServiceImpl.java:148-160 | result and new store are `Ledger.DepositMoney` of the old store |
| Service.AccountService.IsAccountExist | src/main/java/com/revolut/interview/service/AccountServiceImpl.java:162-170 | true if and only if some stored account has that owner |
| Service.AccountService.GetAccountFromRepository | src/main/java/com/revolut/interview/service/AccountServiceImpl.java:172-179 | the stored record, which carries the requested id, or AccountNotExists(id) when absent |
| Service.ServiceWithOneAccount | src/test/java/com/revolut/interview/controller/AccountControllerIntegrationTest.java:37-41 | creating an account in a new service leaves exactly that one record |
| Service.TransferScenario | src/test/java/com/revolut/interview/controller/AccountControllerIntegrationTest.java:176-205 | accounts of 70 and 20, a transfer of 30, then reading back, gives 40 and 50 |
| Service.DuplicateOwnerScenario | src/test/java/com/revolut/interview/controller/AccountControllerIntegrationTest.java:44-52 | a second create for "Zulqarnain" fails with AccountAlreadyExist |
| Service.DepositScenario | src/test/java/com/revolut/interview/controller/AccountControllerIntegrationTest.java:110-126 | an account opened with 20 reads 120 after a deposit of 100 |
| Service.InsufficientWithdrawScenario | src/test/java/com/revolut/interview/controller/AccountControllerIntegrationTest.java:156-165 | withdrawing 60 from 50 fails with InsufficientBalance and the balance stays 50 |
| Service.AllAccountsScenario | src/test/java/com/revolut/interview/controller/AccountControllerIntegrationTest.java:76-89 | two accounts for two owners give two views. The cited test asserts that the JSON envelope has two fields (`status` and `data`), which holds whatever the number of accounts; this scenario states the account count that the test is evidently meant to check |

## Left out

- Locking: the `ReentrantReadWriteLock` and the `ConcurrentHashMap` are concurrency. Every operation is modelled as one atomic sequential method. This matches the code, which runs every mutation under the one exclusive lock. The read lock nested inside the write lock in `isAccountExist` has no counterpart. Readers running concurrently with each other are not modelled.
- `UUID.randomUUID()` is randomness. The id is a parameter of `CreateAccount`, with a precondition that the service never issued it before.
- Logging through slf4j is not modelled.
- `BigDecimal` scale (its scale-sensitive `equals`) and the `Currency` lookup are library behaviour. Amounts are exact integers and a currency is its code.
- Null references: the model has no null values; a null lookup result is `Option.None`, and every record's owner, balance and currency are present. In the Java service nulls behave as follows, none of which is modelled:
  - `createAccount` with a null `userId`, `balance` or `currency` does not throw: `AccountMapper.java:11-18` copies the null and `AccountRepositoryImpl.java:19-21` stores the record, so an id is returned.
  - Once a record with a null owner is stored, `isAccountExist` (`AccountRepositoryImpl.java:50`) throws a `NullPointerException` when its scan reaches that record, so a later `createAccount` for an owner not matched earlier in the scan fails with that exception instead of succeeding or failing with `AccountAlreadyExist`.
  - A null amount, or a null balance on the looked-up source account, makes `transferAmount`, `withDrawMoney` and `depositMoney` throw before anything is changed (`AccountServiceImpl.java:116`, `:137`, `:154`).
  - A null balance on the destination of a transfer makes `transferAmount` throw at `AccountServiceImpl.java:121`, after the source's stored record has already been debited in place at `:120` and before `saveAll` at `:124`. The call fails, but the debit stays in the store. The model, whose records always have a balance, has no such partial transfer.
- The HTTP controller, the application entry point, Guice wiring, JSON envelopes and the mapping of failures to HTTP status codes are transport plumbing. `AccountController.java`, `MoneyTransferAPI.java` and `ApplicationInjector.java` are not part of this model.
- The mapper is an injected, stateless object in the code. Here its two `createFrom` methods are the module functions `Mapper.AccountFrom` and `Mapper.ResponseFrom`.
- Shared mutable records are modelled as values. The store holds the very objects that lookups return, and the service changes them in place before writing them back. For records without null fields, copying records is equivalent, because every service call that changes a record then writes it back under its own id. (With a null destination balance, a transfer throws between changing the source record and writing it back; see the null line above.) The one observable effect of sharing, the self-transfer, is reproduced explicitly.
- Service.AccountService.GetAllAccounts: returns a set of views, not an ordered list; the code's order is the map's iteration order, which callers do not rely on. The set's size is proved equal to the number of stored accounts, so no view is lost.
- Repository.AccountRepository.GetAllAccounts: returns the stored records as a set rather than a live collection view of the map.
