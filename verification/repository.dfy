/**
 The account repository the service consumes. Its implementation is not part of
 this model; what is modelled is the contract the service relies on: a point
 lookup that answers `null` for an unknown id, and a batch update that applies
 every delta or none and reports which.
 */
module AccountRepository {
  import opened Wrappers
  import opened Accounts

  /** Point lookup; `None` is the repository's `null` for an unknown id. */
  function GetAccount(store: Store, id: Id): (r: Option<Account>)
    ensures r.Some? <==> id in store
    ensures r.Some? ==> r.value.accountId == id && r.value.balance == store[id]
  {
    if id in store then Some(Account(id, store[id])) else None
  }

  /** True iff every update of the batch names an account of the store. */
  predicate AllKnown(store: Store, batch: seq<AccountUpdate>)
  {
    forall i :: 0 <= i < |batch| ==> batch[i].accountId in store
  }

  /** The sum of the deltas of the batch that name `id`. */
  function DeltaFor(batch: seq<AccountUpdate>, id: Id): real
  {
    if batch == [] then 0.0
    else (if batch[0].accountId == id then batch[0].delta else 0.0) + DeltaFor(batch[1..], id)
  }

  /** Adds every delta of the batch, in order, to the balance it names. */
  function ApplyBatch(store: Store, batch: seq<AccountUpdate>): (r: Store)
    requires AllKnown(store, batch)
    ensures r.Keys == store.Keys
    ensures forall id :: id in store ==> r[id] == store[id] + DeltaFor(batch, id)
    decreases |batch|
  {
    if batch == [] then store
    else
      var u := batch[0];
      var next := store[u.accountId := store[u.accountId] + u.delta];
      var r := ApplyBatch(next, batch[1..]);
      assert forall id :: id in store ==> r[id] == store[id] + DeltaFor(batch, id) by {
        forall id | id in store ensures r[id] == store[id] + DeltaFor(batch, id) {
          assert next[id] == store[id] + (if u.accountId == id then u.delta else 0.0);
        }
      }
      r
  }

  /** Accounts a batch does not name receive no delta. */
  lemma {:induction false} DeltaForUnmentioned(batch: seq<AccountUpdate>, id: Id)
    requires !Mentions(batch, id)
    ensures DeltaFor(batch, id) == 0.0
    decreases |batch|
  {
    if batch != [] {
      assert batch[0].accountId != id;
      assert !Mentions(batch[1..], id);
      DeltaForUnmentioned(batch[1..], id);
    }
  }

  /** Applying a batch changes the total balance by the sum of its deltas. */
  lemma {:induction false} ApplyBatchTotal(store: Store, batch: seq<AccountUpdate>)
    requires AllKnown(store, batch)
    ensures Total(ApplyBatch(store, batch)) == Total(store) + SumDeltas(batch)
    decreases |batch|
  {
    if batch != [] {
      var u := batch[0];
      var next := store[u.accountId := store[u.accountId] + u.delta];
      ApplyBatchStep(store, batch);
      calc {
        Total(ApplyBatch(store, batch));
        Total(ApplyBatch(next, batch[1..]));
        { ApplyBatchTotal(next, batch[1..]); }
        Total(next) + SumDeltas(batch[1..]);
        { TotalUpdate(store, u.accountId, store[u.accountId] + u.delta); }
        Total(store) + u.delta + SumDeltas(batch[1..]);
        Total(store) + SumDeltas(batch);
      }
    }
  }

  /** One step of `ApplyBatch`: the first delta is applied, then the rest of the batch. */
  lemma ApplyBatchStep(store: Store, batch: seq<AccountUpdate>)
    requires AllKnown(store, batch) && batch != []
    ensures var next := store[batch[0].accountId := store[batch[0].accountId] + batch[0].delta];
      && AllKnown(next, batch[1..])
      && ApplyBatch(store, batch) == ApplyBatch(next, batch[1..])
      && SumDeltas(batch) == batch[0].delta + SumDeltas(batch[1..])
  {
  }

  /**
   The all-or-nothing batch update. `storeOk` is the repository's own verdict
   (a transaction that commits or not), which this model takes as a parameter.
   A batch naming an unknown account is reported as not applied.
   */
  function UpdateAccounts(store: Store, batch: seq<AccountUpdate>, storeOk: bool): (res: (bool, Store))
    ensures res.0 <==> storeOk && AllKnown(store, batch)
    ensures res.1.Keys == store.Keys
    ensures !res.0 ==> res.1 == store
    ensures res.0 ==> res.1 == ApplyBatch(store, batch)
    ensures res.0 ==> Total(res.1) == Total(store) + SumDeltas(batch)
    ensures forall id :: id in store && !Mentions(batch, id) ==> res.1[id] == store[id]
  {
    if storeOk && AllKnown(store, batch) then
      ApplyBatchTotal(store, batch);
      assert forall id :: !Mentions(batch, id) ==> DeltaFor(batch, id) == 0.0 by {
        forall id | !Mentions(batch, id) ensures DeltaFor(batch, id) == 0.0 {
          DeltaForUnmentioned(batch, id);
        }
      }
      (true, ApplyBatch(store, batch))
    else
      (false, store)
  }
}
