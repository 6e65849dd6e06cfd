/**
 * The account store: a finite map from account id to account record. It
 * enforces no business rule; absence is an ordinary result, not an error.
 */
module Repository {
  import opened Model

  /** The contents of the store. */
  type Storage = map<Uuid, Account>

  /** Every record is filed under its own id, as `save` always keys by `account.id`. */
  ghost predicate KeysMatch(m: Storage)
  {
    forall k :: k in m ==> m[k].id == k
  }

  /** The store after saving each account of `accounts` in list order. */
  function PutAll(m: Storage, accounts: seq<Account>): Storage
    decreases |accounts|
  {
    if accounts == [] then m
    else PutAll(m[accounts[0].id := accounts[0]], accounts[1..])
  }

  /** Some stored record is owned by `userId`. */
  ghost predicate HasOwner(m: Storage, userId: string)
  {
    exists k :: k in m && m[k].userId == userId
  }

  /** Saving a list and then one more account is saving the longer list. */
  lemma {:induction false} PutAllSnoc(m: Storage, accounts: seq<Account>, a: Account)
    ensures PutAll(m, accounts + [a]) == PutAll(m, accounts)[a.id := a]
    decreases |accounts|
  {
    if accounts == [] {
      assert accounts + [a] == [a];
    } else {
      assert (accounts + [a])[1..] == accounts[1..] + [a];
      PutAllSnoc(m[accounts[0].id := accounts[0]], accounts[1..], a);
    }
  }

  /** An id that no account of the list carries keeps its old entry, or its absence. */
  lemma {:induction false} PutAllUntouched(m: Storage, accounts: seq<Account>, k: Uuid)
    requires forall j :: 0 <= j < |accounts| ==> accounts[j].id != k
    ensures k in PutAll(m, accounts) <==> k in m
    ensures k in m ==> PutAll(m, accounts)[k] == m[k]
    decreases |accounts|
  {
    if accounts != [] {
      PutAllUntouched(m[accounts[0].id := accounts[0]], accounts[1..], k);
    }
  }

  /** The last account of the list with a given id is the one that ends up stored. */
  lemma {:induction false} PutAllLaterWins(m: Storage, accounts: seq<Account>, j: nat)
    requires j < |accounts|
    requires forall i :: j < i < |accounts| ==> accounts[i].id != accounts[j].id
    ensures accounts[j].id in PutAll(m, accounts)
    ensures PutAll(m, accounts)[accounts[j].id] == accounts[j]
    decreases j
  {
    var m' := m[accounts[0].id := accounts[0]];
    if j == 0 {
      PutAllUntouched(m', accounts[1..], accounts[0].id);
    } else {
      PutAllLaterWins(m', accounts[1..], j - 1);
    }
  }

  /** Saving the same account twice is the same as saving it once. */
  lemma SaveIdempotent(m: Storage, a: Account)
    ensures PutAll(m, [a, a]) == PutAll(m, [a])
  {
    assert [a, a][1..] == [a];
    assert PutAll(m, [a, a]) == PutAll(m[a.id := a], [a]);
  }

  /** Saving keeps every record filed under its own id. */
  lemma {:induction false} PutAllKeysMatch(m: Storage, accounts: seq<Account>)
    requires KeysMatch(m)
    ensures KeysMatch(PutAll(m, accounts))
    decreases |accounts|
  {
    if accounts != [] {
      PutAllKeysMatch(m[accounts[0].id := accounts[0]], accounts[1..]);
    }
  }

  /** When records are filed under their own ids, there is one distinct record per key. */
  lemma {:induction false} ValuesCardinality(m: Storage)
    ensures KeysMatch(m) ==> |m.Values| == |m|
    decreases |m|
  {
    if KeysMatch(m) && m != map[] {
      var k :| k in m;
      var rest := m - {k};
      assert rest.Keys == m.Keys - {k};
      ValuesCardinality(rest);
      forall v | v in m.Values
        ensures v in rest.Values || v == m[k]
      {
        var k' :| k' in m && m[k'] == v;
        if k' != k { assert rest[k'] == v; }
      }
      assert m.Values == rest.Values + {m[k]};
      forall v | v in rest.Values
        ensures v != m[k]
      {
        var k' :| k' in rest && rest[k'] == v;
      }
    }
  }

  /** The in-memory store; its one field is changed in place by put, remove and clear. */
  class AccountRepository {
    var accountsStorage: Storage

    ghost predicate Valid()
      reads this
    {
      KeysMatch(accountsStorage)
    }

    constructor ()
      ensures Valid()
      ensures accountsStorage == map[]
    {
      accountsStorage := map[];
    }

    /** Inserts or replaces the record filed under `account.id`. */
    method Save(account: Account)
      requires Valid()
      modifies this
      ensures Valid()
      ensures accountsStorage == old(accountsStorage)[account.id := account]
    {
      accountsStorage := accountsStorage[account.id := account];
    }

    /** Saves the accounts one after another, in list order. */
    method SaveAll(accounts: seq<Account>)
      requires Valid()
      modifies this
      ensures Valid()
      ensures accountsStorage == PutAll(old(accountsStorage), accounts)
    {
      for i := 0 to |accounts|
        invariant accountsStorage == PutAll(old(accountsStorage), accounts[..i])
        invariant KeysMatch(accountsStorage)
      {
        PutAllSnoc(old(accountsStorage), accounts[..i], accounts[i]);
        assert accounts[..i + 1] == accounts[..i] + [accounts[i]];
        accountsStorage := accountsStorage[accounts[i].id := accounts[i]];
      }
      assert accounts[..|accounts|] == accounts;
    }

    /** The record filed under `id`, or `None` (null) when there is none. */
    function GetAccountById(id: Uuid): (r: Option<Account>)
      reads this
      ensures r.Some? <==> id in accountsStorage
      ensures r.Some? ==> r.value == accountsStorage[id]
      ensures Valid() && r.Some? ==> r.value.id == id
    {
      if id in accountsStorage then Some(accountsStorage[id]) else None
    }

    /** Every stored record, one per key. */
    function GetAllAccounts(): (r: set<Account>)
      reads this
      ensures forall k :: k in accountsStorage ==> accountsStorage[k] in r
      ensures forall a :: a in r ==> Valid() ==> a.id in accountsStorage && accountsStorage[a.id] == a
      ensures Valid() ==> |r| == |accountsStorage|
    {
      ValuesCardinality(accountsStorage);
      accountsStorage.Values
    }

    /** Removes the record filed under `accountId`; nothing happens when there is none. */
    method DeleteAccount(accountId: Uuid)
      requires Valid()
      modifies this
      ensures Valid()
      ensures accountsStorage == old(accountsStorage) - {accountId}
      ensures accountId !in old(accountsStorage) ==> accountsStorage == old(accountsStorage)
    {
      accountsStorage := accountsStorage - {accountId};
    }

    /** Removes every record. */
    method DeleteAllAccounts()
      modifies this
      ensures Valid()
      ensures accountsStorage == map[]
    {
      accountsStorage := map[];
    }

    /** Whether any stored record is owned by `userId`. */
    function IsAccountExist(userId: string): (b: bool)
      reads this
      ensures b <==> HasOwner(accountsStorage, userId)
    {
      exists a :: a in accountsStorage.Values && a.userId == userId
    }
  }
}
