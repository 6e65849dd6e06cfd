/**
 * The ledger service: the only writer of the account store. Every
 * operation runs to completion as one step (the Java service serialises all
 * mutations behind one exclusive lock), and each method is proved to do
 * exactly what the matching function of module Ledger (or, for the owner
 * query, the predicate Repository.HasOwner) says.
 */
module Service {
  import opened Model
  import opened Repository
  import Mapper
  import Ledger

  class AccountService {
    const accountRepository: AccountRepository

    /** Every id this service has handed out, or found in the store it was given. */
    ghost var issuedIds: set<Uuid>

    ghost predicate Valid()
      reads this, accountRepository
    {
      accountRepository.Valid() && accountRepository.accountsStorage.Keys <= issuedIds
    }

    /** The contents of the store. */
    ghost function Store(): Storage
      reads accountRepository
    {
      accountRepository.accountsStorage
    }

    constructor (accountRepository: AccountRepository)
      requires accountRepository.Valid()
      ensures Valid()
      ensures this.accountRepository == accountRepository
      ensures issuedIds == accountRepository.accountsStorage.Keys
    {
      this.accountRepository := accountRepository;
      issuedIds := accountRepository.accountsStorage.Keys;
    }

    /**
     * Opens an account. `accountId` stands for the random UUID the Java service
     * draws; that such an id was never issued before is the precondition.
     */
    method CreateAccount(req: CreateAccountRequest, accountId: Uuid) returns (r: Ledger.Result<Uuid>)
      requires Valid()
      requires accountId !in issuedIds
      modifies this, accountRepository
      ensures Valid()
      ensures Ledger.Step(r, Store()) == Ledger.CreateAccount(old(Store()), req, accountId)
      ensures issuedIds == if r.Success? then old(issuedIds) + {accountId} else old(issuedIds)
    {
      var taken := IsAccountExist(req.userId);
      if taken {
        return Ledger.Failure(Ledger.AccountAlreadyExist(req.userId));
      }
      var account := Mapper.AccountFrom(req, accountId);
      accountRepository.Save(account);
      issuedIds := issuedIds + {accountId};
      r := Ledger.Success(accountId);
    }

    /** The view of one account. */
    method GetAccount(accountId: Uuid) returns (r: Ledger.Result<AccountResponse>)
      requires Valid()
      ensures r == Ledger.GetAccount(Store(), accountId)
    {
      var found := GetAccountFromRepository(accountId);
      match found
      case Failure(e) => r := Ledger.Failure(e);
      case Success(account) => r := Ledger.Success(Mapper.ResponseFrom(account));
    }

    /** The views of all accounts, one per stored account. */
    method GetAllAccounts() returns (r: set<AccountResponse>)
      requires Valid()
      ensures r == Ledger.GetAllAccounts(Store())
      ensures |r| == |Store()|
    {
      var accounts := accountRepository.GetAllAccounts();
      Mapper.ViewsCardinality(accounts);
      r := Mapper.Views(accounts);
    }

    /** Closes an existing account. */
    method DeleteAccount(accountId: Uuid) returns (r: Ledger.Result<()>)
      requires Valid()
      modifies accountRepository
      ensures Valid()
      ensures Ledger.Step(r, Store()) == Ledger.DeleteAccount(old(Store()), accountId)
    {
      var found := GetAccountFromRepository(accountId);
      if found.Failure? {
        return Ledger.Failure(found.error);
      }
      accountRepository.DeleteAccount(found.value.id);
      r := Ledger.Success(());
    }

    /** Closes every account. */
    method DeleteAllAccounts()
      requires Valid()
      modifies accountRepository
      ensures Valid()
      ensures Store() == Ledger.DeleteAllAccounts(old(Store())).store
    {
      accountRepository.DeleteAllAccounts();
    }

    /**
     * Moves money between two accounts. Both are looked up before anything
     * is written; the two updated records are then written as one batch.
     */
    method TransferAmount(req: TransferMoneyRequest) returns (r: Ledger.Result<()>)
      requires Valid()
      modifies accountRepository
      ensures Valid()
      ensures Ledger.Step(r, Store()) == Ledger.TransferAmount(old(Store()), req)
    {
      var fromFound := GetAccountFromRepository(req.fromAccount);
      if fromFound.Failure? {
        return Ledger.Failure(fromFound.error);
      }
      var toFound := GetAccountFromRepository(req.toAccount);
      if toFound.Failure? {
        return Ledger.Failure(toFound.error);
      }
      var fromAccount, toAccount := fromFound.value, toFound.value;
      if fromAccount.balance < req.amount {
        return Ledger.Failure(Ledger.InsufficientBalance(req.fromAccount));
      }
      fromAccount := fromAccount.(balance := fromAccount.balance - req.amount);
      // Both lookups yield one shared record when the ids coincide, so the credit sees the debit.
      if req.toAccount == req.fromAccount {
        toAccount := fromAccount;
      }
      toAccount := toAccount.(balance := toAccount.balance + req.amount);
      Ledger.PutAllPair(Store(), fromAccount, toAccount);
      accountRepository.SaveAll([fromAccount, toAccount]);
      r := Ledger.Success(());
    }

    /** Takes money out of an account that holds at least the amount. */
    method WithDrawMoney(req: WithDrawMoneyRequest) returns (r: Ledger.Result<()>)
      requires Valid()
      modifies accountRepository
      ensures Valid()
      ensures Ledger.Step(r, Store()) == Ledger.WithDrawMoney(old(Store()), req)
    {
      var found := GetAccountFromRepository(req.accountId);
      if found.Failure? {
        return Ledger.Failure(found.error);
      }
      var account := found.value;
      if account.balance < req.amount {
        return Ledger.Failure(Ledger.InsufficientBalance(req.accountId));
      }
      account := account.(balance := account.balance - req.amount);
      accountRepository.Save(account);
      r := Ledger.Success(());
    }

    /** Adds money to an account. */
    method DepositMoney(req: DepositMoneyRequest) returns (r: Ledger.Result<()>)
      requires Valid()
      modifies accountRepository
      ensures Valid()
      ensures Ledger.Step(r, Store()) == Ledger.DepositMoney(old(Store()), req)
    {
      var found := GetAccountFromRepository(req.accountId);
      if found.Failure? {
        return Ledger.Failure(found.error);
      }
      var account := found.value;
      account := account.(balance := account.balance + req.amount);
      accountRepository.Save(account);
      r := Ledger.Success(());
    }

    /** Whether some stored account is owned by `userId`. */
    method IsAccountExist(userId: string) returns (b: bool)
      requires Valid()
      ensures b <==> HasOwner(Store(), userId)
    {
      b := accountRepository.IsAccountExist(userId);
    }

    /** The stored record for `accountId`, failing with AccountNotExists when there is none. */
    method GetAccountFromRepository(accountId: Uuid) returns (r: Ledger.Result<Account>)
      requires Valid()
      ensures r == Ledger.Lookup(Store(), accountId)
      ensures r.Success? ==> r.value.id == accountId
    {
      var account := accountRepository.GetAccountById(accountId);
      if account.None? {
        return Ledger.Failure(Ledger.AccountNotExists(accountId));
      }
      r := Ledger.Success(account.value);
    }
  }

  /** Two accounts of 70 and 20; a transfer of 30 leaves 40 and 50. */
  method TransferScenario() returns (fromBalance: Money, toBalance: Money)
    ensures fromBalance == 40 && toBalance == 50
  {
    var repository := new AccountRepository();
    var service := new AccountService(repository);
    var gbp := Currency("GBP");
    var idA, idB := Uuid(1, 1), Uuid(2, 2);
    var reqA := CreateAccountRequest("Zulqarnain", 70, gbp);
    var reqB := CreateAccountRequest("Adnan", 20, gbp);

    Ledger.CreateAccountStoresRecord(service.Store(), reqA, idA);
    var a := service.CreateAccount(reqA, idA);
    assert service.Store() == map[idA := Account(idA, "Zulqarnain", 70, gbp)];
    assert !HasOwner(service.Store(), "Adnan") by {
      assert forall k :: k in service.Store() ==> service.Store()[k].userId == "Zulqarnain";
    }
    Ledger.CreateAccountStoresRecord(service.Store(), reqB, idB);
    var b := service.CreateAccount(reqB, idB);
    assert service.Store()[idA].balance == 70 && service.Store()[idB].balance == 20;

    Ledger.TransferMovesAmount(service.Store(), TransferMoneyRequest(idA, idB, 30));
    var t := service.TransferAmount(TransferMoneyRequest(idA, idB, 30));
    assert t.Success?;

    Ledger.GetAccountOfKnownId(service.Store(), idA);
    Ledger.GetAccountOfKnownId(service.Store(), idB);
    var from := service.GetAccount(idA);
    var to := service.GetAccount(idB);
    fromBalance, toBalance := from.value.balance, to.value.balance;
  }

  /** A service over a new, empty store with one account opened for `req` under `accountId`. */
  method ServiceWithOneAccount(req: CreateAccountRequest, accountId: Uuid) returns (service: AccountService)
    ensures fresh(service) && fresh(service.accountRepository)
    ensures service.Valid() && service.issuedIds == {accountId}
    ensures service.Store() == map[accountId := Account(accountId, req.userId, req.balance, req.currency)]
  {
    var repository := new AccountRepository();
    service := new AccountService(repository);
    Ledger.CreateAccountStoresRecord(service.Store(), req, accountId);
    var created := service.CreateAccount(req, accountId);
  }

  /** A second account for the same owner is refused. */
  method DuplicateOwnerScenario() returns (second: Ledger.Result<Uuid>)
    ensures second == Ledger.Failure(Ledger.AccountAlreadyExist("Zulqarnain"))
  {
    var req := CreateAccountRequest("Zulqarnain", 500, Currency("GBP"));
    var service := ServiceWithOneAccount(req, Uuid(1, 1));
    assert service.Store()[Uuid(1, 1)].userId == "Zulqarnain";
    second := service.CreateAccount(req, Uuid(2, 2));
  }

  /** An account opened with 20 holds 120 after a deposit of 100. */
  method DepositScenario() returns (balance: Money)
    ensures balance == 120
  {
    var id := Uuid(1, 1);
    var service := ServiceWithOneAccount(CreateAccountRequest("Zulqarnain", 20, Currency("GBP")), id);
    Ledger.DepositAddsAmount(service.Store(), DepositMoneyRequest(id, 100));
    var d := service.DepositMoney(DepositMoneyRequest(id, 100));
    var view := service.GetAccount(id);
    balance := view.value.balance;
  }

  /** Withdrawing 60 from 50 is refused and the balance stays 50. */
  method InsufficientWithdrawScenario() returns (w: Ledger.Result<()>, balance: Money)
    ensures w == Ledger.Failure(Ledger.InsufficientBalance(Uuid(1, 1)))
    ensures balance == 50
  {
    var id := Uuid(1, 1);
    var service := ServiceWithOneAccount(CreateAccountRequest("Zulqarnain", 50, Currency("GBP")), id);
    w := service.WithDrawMoney(WithDrawMoneyRequest(id, 60));
    var view := service.GetAccount(id);
    balance := view.value.balance;
  }

  /** Two owners, two accounts: listing all accounts gives two views. */
  method AllAccountsScenario() returns (count: nat)
    ensures count == 2
  {
    var service := ServiceWithOneAccount(CreateAccountRequest("Zulqarnain", 200, Currency("GBP")), Uuid(1, 1));
    assert !HasOwner(service.Store(), "Hafeez") by {
      assert forall k :: k in service.Store() ==> service.Store()[k].userId == "Zulqarnain";
    }
    var b := service.CreateAccount(CreateAccountRequest("Hafeez", 50, Currency("PLN")), Uuid(2, 2));
    var views := service.GetAllAccounts();
    count := |views|;
  }
}
