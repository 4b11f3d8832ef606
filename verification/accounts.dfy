/**
 The value objects exchanged between the accounts service and its repository:
 accounts, balance deltas, transfer requests, and the store of balances keyed by
 account id. Balances are exact reals, standing for `BigDecimal` amounts.
 */
module Accounts {

  type Id = string

  /** An account as returned by the repository: its id and current balance. */
  datatype Account = Account(accountId: Id, balance: real)

  /** One element of a batch update: add `delta` to the balance of `accountId`. */
  datatype AccountUpdate = AccountUpdate(accountId: Id, delta: real)

  /** A transfer request. Nothing in the request forces `amount` to be positive. */
  datatype AmountTransfer = AmountTransfer(accountFromId: Id, accountToId: Id, amount: real)

  /** The persisted balances, keyed by account id. */
  type Store = map<Id, real>

  /** Sum of the deltas of a batch. */
  function SumDeltas(batch: seq<AccountUpdate>): real
  {
    if batch == [] then 0.0 else batch[0].delta + SumDeltas(batch[1..])
  }

  /** True iff some update of the batch names `id`. */
  predicate Mentions(batch: seq<AccountUpdate>, id: Id)
  {
    exists i :: 0 <= i < |batch| && batch[i].accountId == id
  }

  /** True iff every balance in the store is non-negative. */
  predicate NonNegative(store: Store)
  {
    forall id :: id in store ==> store[id] >= 0.0
  }

  /** Some account id of a non-empty store. */
  ghost function PickId(store: Store): (id: Id)
    requires store != map[]
    ensures id in store
  {
    assert store.Keys != {};
    var id :| id in store; id
  }

  /** The total balance held across all accounts of the store. */
  ghost function Total(store: Store): real
    decreases |store|
  {
    if store == map[] then 0.0
    else
      var id := PickId(store);
      assert |store - {id}| == |store| - 1;
      store[id] + Total(store - {id})
  }

  /** The total may be split at any account, not only at the one `Total` picks. */
  lemma {:induction false} TotalRemove(store: Store, id: Id)
    requires id in store
    ensures Total(store) == store[id] + Total(store - {id})
    decreases |store|
  {
    var p := PickId(store);
    if p != id {
      var rest := store - {p};
      assert |rest| == |store| - 1;
      assert id in rest;
      TotalRemove(rest, id);
      var other := store - {id};
      assert |other| == |store| - 1;
      assert p in other;
      TotalRemove(other, p);
      assert rest - {id} == other - {p};
    }
  }

  /** Overwriting one balance changes the total by exactly the difference. */
  lemma TotalUpdate(store: Store, id: Id, v: real)
    requires id in store
    ensures Total(store[id := v]) == Total(store) - store[id] + v
  {
    var updated := store[id := v];
    TotalRemove(store, id);
    TotalRemove(updated, id);
    assert updated - {id} == store - {id};
  }
}
