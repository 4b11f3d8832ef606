/**
 Properties of `AccountsService.TransferAmount`: an independent reference
 definition of its outcome stated directly on the store (which error wins, in
 what order), and the consequences callers rely on: fail-fast without any
 update, the exact batch, conservation, the frame, and non-negativity.
 */
module TransferProperties {
  import opened Wrappers
  import opened Accounts
  import opened Exceptions
  import opened AccountsService
  import Repo = AccountRepository

  /** The kinds of outcome of a transfer, with the account an error is about. */
  datatype Verdict =
    | NotFound(id: Id)
    | SelfTransfer
    | InsufficientFunds(id: Id)
    | UpdateFailed
    | Transferred

  /** The outcome a transfer must have, decided on the store alone, earliest check first. */
  function Expected(store: Store, t: AmountTransfer, storeOk: bool): Verdict
  {
    if t.accountFromId !in store then NotFound(t.accountFromId)
    else if t.accountToId !in store then NotFound(t.accountToId)
    else if t.accountFromId == t.accountToId then SelfTransfer
    else if store[t.accountFromId] < t.amount then InsufficientFunds(t.accountFromId)
    else if !storeOk then UpdateFailed
    else Transferred
  }

  /** The store after `amount` has moved from `from` to `to`. */
  function Moved(store: Store, from: Id, to: Id, amount: real): Store
    requires from in store && to in store
  {
    store[from := store[from] - amount][to := store[to] + amount]
  }

  /** What the caller observes for each verdict. */
  function Reference(store: Store, t: AmountTransfer, storeOk: bool): TransferOutcome
  {
    var batch := [AccountUpdate(t.accountFromId, -t.amount), AccountUpdate(t.accountToId, t.amount)];
    match Expected(store, t, storeOk)
    case NotFound(id) => TransferOutcome(Failure(AccountNotFound(NotFoundMessage(id))), None, store)
    case SelfTransfer => TransferOutcome(Failure(TransferBetweenSameAccount(SelfTransferMessage)), None, store)
    case InsufficientFunds(id) => TransferOutcome(Failure(NotEnoughFunds(NotEnoughFundsMessage(id))), None, store)
    case UpdateFailed => TransferOutcome(Success(RetryStatus), Some(batch), store)
    case Transferred =>
      TransferOutcome(Success(SuccessStatus), Some(batch), Moved(store, t.accountFromId, t.accountToId, t.amount))
  }

  /** Applying the two-entry batch to two distinct known accounts moves the amount. */
  lemma ApplyTransferBatch(store: Store, from: Id, to: Id, amount: real)
    requires from in store && to in store && from != to
    ensures Repo.AllKnown(store, TransferBatch(from, to, amount))
    ensures Repo.ApplyBatch(store, TransferBatch(from, to, amount)) == Moved(store, from, to, amount)
  {
    var b := TransferBatch(from, to, amount);
    assert Repo.AllKnown(store, b);
    var r := Repo.ApplyBatch(store, b);
    var m := Moved(store, from, to, amount);
    forall id | id in store
      ensures r[id] == m[id]
    {
      TransferBatchDelta(from, to, amount, id);
    }
    assert r.Keys == m.Keys;
  }

  /** Under the transfer batch the source receives `-amount`, the destination `+amount`, others nothing. */
  lemma TransferBatchDelta(from: Id, to: Id, amount: real, id: Id)
    requires from != to
    ensures Repo.DeltaFor(TransferBatch(from, to, amount), id)
         == if id == from then -amount else if id == to then amount else 0.0
  {
    var b := TransferBatch(from, to, amount);
    assert b[1..] == [b[1]] && b[1..][1..] == [];
    assert Repo.DeltaFor(b[1..][1..], id) == 0.0;
  }

  /** The service decides every transfer exactly as the reference does. */
  lemma TransferAmountMatchesReference(store: Store, t: AmountTransfer, storeOk: bool)
    ensures TransferAmount(store, t, storeOk) == Reference(store, t, storeOk)
  {
    if Expected(store, t, storeOk) == Transferred {
      ApplyTransferBatch(store, t.accountFromId, t.accountToId, t.amount);
    }
  }

  /** An unknown source fails with its own id, whether or not the destination exists. */
  lemma SourceResolvedFirst(store: Store, t: AmountTransfer, storeOk: bool)
    requires t.accountFromId !in store
    ensures TransferAmount(store, t, storeOk)
         == TransferOutcome(Failure(AccountNotFound(NotFoundMessage(t.accountFromId))), None, store)
  {
  }

  /** A known source and an unknown destination fail with the destination's id. */
  lemma DestinationResolvedSecond(store: Store, t: AmountTransfer, storeOk: bool)
    requires t.accountFromId in store && t.accountToId !in store
    ensures TransferAmount(store, t, storeOk)
         == TransferOutcome(Failure(AccountNotFound(NotFoundMessage(t.accountToId))), None, store)
  {
  }

  /** A self-transfer is refused before any funds check, whatever the amount. */
  lemma SelfTransferRejected(store: Store, t: AmountTransfer, storeOk: bool)
    requires t.accountFromId in store && t.accountFromId == t.accountToId
    ensures TransferAmount(store, t, storeOk)
         == TransferOutcome(Failure(TransferBetweenSameAccount(SelfTransferMessage)), None, store)
  {
  }

  /** After two successful lookups the defensive null check of `validate` never fires. */
  lemma DefensiveCheckUnreachable(store: Store, t: AmountTransfer, storeOk: bool)
    ensures TransferAmount(store, t, storeOk).response != Failure(AccountNotFound(CheckDetailsMessage))
  {
    TransferAmountMatchesReference(store, t, storeOk);
    CheckDetailsIsNoNotFoundMessage(t.accountFromId);
    CheckDetailsIsNoNotFoundMessage(t.accountToId);
  }

  /** A not-found failure names the first account, in lookup order, that is unknown. */
  lemma NotFoundNamesMissingAccount(store: Store, t: AmountTransfer, storeOk: bool, id: Id)
    ensures (TransferAmount(store, t, storeOk).response == Failure(AccountNotFound(NotFoundMessage(id))))
        <==> ((id == t.accountFromId && id !in store)
              || (t.accountFromId in store && id == t.accountToId && id !in store))
  {
    TransferAmountMatchesReference(store, t, storeOk);
    NotFoundMessageInjective(id, t.accountFromId);
    NotFoundMessageInjective(id, t.accountToId);
    CheckDetailsIsNoNotFoundMessage(id);
  }

  /** A debit that would leave the source negative is refused and nothing is updated. */
  lemma InsufficientFundsRejected(store: Store, t: AmountTransfer, storeOk: bool)
    requires t.accountFromId in store && t.accountToId in store
    requires t.accountFromId != t.accountToId
    requires store[t.accountFromId] - t.amount < 0.0
    ensures TransferAmount(store, t, storeOk)
         == TransferOutcome(Failure(NotEnoughFunds(NotEnoughFundsMessage(t.accountFromId))), None, store)
  {
  }

  /** Moving the entire balance is allowed and leaves the source at zero. */
  lemma WholeBalanceMayMove(store: Store, t: AmountTransfer)
    requires t.accountFromId in store && t.accountToId in store
    requires t.accountFromId != t.accountToId
    requires t.amount == store[t.accountFromId]
    ensures TransferAmount(store, t, true).response == Success(SuccessStatus)
    ensures TransferAmount(store, t, true).store[t.accountFromId] == 0.0
  {
    TransferAmountMatchesReference(store, t, true);
  }

  /** With enough funds and a repository that commits, exactly the amount moves. */
  lemma SuccessfulTransfer(store: Store, t: AmountTransfer)
    requires t.accountFromId in store && t.accountToId in store
    requires t.accountFromId != t.accountToId
    requires t.amount <= store[t.accountFromId]
    ensures var r := TransferAmount(store, t, true);
      && r.response == Success(SuccessStatus)
      && r.batch == Some([AccountUpdate(t.accountFromId, -t.amount), AccountUpdate(t.accountToId, t.amount)])
      && r.store.Keys == store.Keys
      && r.store[t.accountFromId] == store[t.accountFromId] - t.amount
      && r.store[t.accountToId] == store[t.accountToId] + t.amount
      && (forall id :: id in store && id != t.accountFromId && id != t.accountToId ==> r.store[id] == store[id])
      && Total(r.store) == Total(store)
  {
    TransferredOutcome(store, t);
    var m := Moved(store, t.accountFromId, t.accountToId, t.amount);
    assert m[t.accountFromId] == store[t.accountFromId] - t.amount;
    assert m[t.accountToId] == store[t.accountToId] + t.amount;
  }

  /** The whole outcome of a transfer that passes every check and is committed. */
  lemma TransferredOutcome(store: Store, t: AmountTransfer)
    requires t.accountFromId in store && t.accountToId in store
    requires t.accountFromId != t.accountToId
    requires t.amount <= store[t.accountFromId]
    ensures TransferAmount(store, t, true)
         == TransferOutcome(Success(SuccessStatus),
              Some([AccountUpdate(t.accountFromId, -t.amount), AccountUpdate(t.accountToId, t.amount)]),
              Moved(store, t.accountFromId, t.accountToId, t.amount))
  {
    TransferAmountMatchesReference(store, t, true);
  }

  /** A batch the repository does not apply yields the retry status, not an error, and no change. */
  lemma FailedUpdateReturnsStatus(store: Store, t: AmountTransfer)
    requires t.accountFromId in store && t.accountToId in store
    requires t.accountFromId != t.accountToId
    requires t.amount <= store[t.accountFromId]
    ensures var r := TransferAmount(store, t, false);
      && r.response == Success(RetryStatus)
      && r.batch == Some([AccountUpdate(t.accountFromId, -t.amount), AccountUpdate(t.accountToId, t.amount)])
      && r.store == store
  {
  }

  /** Whenever a transfer succeeds, the debited account is not negative. */
  lemma DebitNeverNegative(store: Store, t: AmountTransfer, storeOk: bool)
    ensures var r := TransferAmount(store, t, storeOk);
      r.response == Success(SuccessStatus) ==>
        t.accountFromId in r.store && r.store[t.accountFromId] >= 0.0
  {
    TransferAmountMatchesReference(store, t, storeOk);
  }

  /** For a non-negative amount a successful transfer never lowers the destination. */
  lemma CreditNeverLowers(store: Store, t: AmountTransfer, storeOk: bool)
    requires t.amount >= 0.0
    ensures var r := TransferAmount(store, t, storeOk);
      r.response == Success(SuccessStatus) ==>
        t.accountToId in store && r.store[t.accountToId] >= store[t.accountToId]
  {
    TransferAmountMatchesReference(store, t, storeOk);
  }

  /** For a non-negative amount, a store without negative balances keeps none. */
  lemma PreservesNonNegative(store: Store, t: AmountTransfer, storeOk: bool)
    requires NonNegative(store)
    requires t.amount >= 0.0
    ensures NonNegative(TransferAmount(store, t, storeOk).store)
  {
    TransferAmountMatchesReference(store, t, storeOk);
  }

  /** The amount is never checked: a negative amount can push the destination below zero. */
  lemma NegativeAmountCanOverdrawDestination()
    ensures var r := TransferAmount(map["A" := 0.0, "B" := 0.0], AmountTransfer("A", "B", -10.0), true);
      r.response == Success(SuccessStatus) && r.store["B"] == -10.0
  {
  }

  /** A source with zero balance cannot send 100: the error names the source. */
  lemma ExampleZeroBalance()
    ensures TransferAmount(map["from" := 0.0, "to" := 0.0], AmountTransfer("from", "to", 100.0), true)
         == TransferOutcome(Failure(NotEnoughFunds(NotEnoughFundsMessage("from"))), None, map["from" := 0.0, "to" := 0.0])
  {
  }

  /** 200.99 moves from an account holding 201.99 to an empty one. */
  lemma ExampleExactDecimals()
    ensures var r := TransferAmount(map["from" := 201.99, "to" := 0.0], AmountTransfer("from", "to", 200.99), true);
      r.response == Success(SuccessStatus) && r.store == map["from" := 1.00, "to" := 200.99]
  {
  }

  /**
   A transfer back of the same amount undoes a successful transfer, provided the
   destination did not start negative (otherwise the reverse funds check fails).
   */
  lemma OppositeTransferUndoes(store: Store, t: AmountTransfer)
    requires t.accountFromId in store && t.accountToId in store
    requires t.accountFromId != t.accountToId
    requires t.amount <= store[t.accountFromId]
    requires store[t.accountToId] >= 0.0
    ensures var r1 := TransferAmount(store, t, true);
      var r2 := TransferAmount(r1.store, AmountTransfer(t.accountToId, t.accountFromId, t.amount), true);
      r1.response == Success(SuccessStatus) && r2.response == Success(SuccessStatus) && r2.store == store
  {
    var back := AmountTransfer(t.accountToId, t.accountFromId, t.amount);
    TransferredOutcome(store, t);
    var s1 := Moved(store, t.accountFromId, t.accountToId, t.amount);
    assert s1[t.accountToId] == store[t.accountToId] + t.amount;
    TransferredOutcome(s1, back);
    MovedBack(store, t.accountFromId, t.accountToId, t.amount);
  }

  /** Moving an amount and moving it back restores the store. */
  lemma MovedBack(store: Store, from: Id, to: Id, amount: real)
    requires from in store && to in store && from != to
    ensures Moved(Moved(store, from, to, amount), to, from, amount) == store
  {
  }

  /** Two opposite transfers of 50 between accounts holding 100 each restore both balances. */
  lemma ExampleOppositeTransfers()
    ensures var s0 := map["A" := 100.0, "B" := 100.0];
      var r1 := TransferAmount(s0, AmountTransfer("A", "B", 50.0), true);
      var r2 := TransferAmount(r1.store, AmountTransfer("B", "A", 50.0), true);
      r1.response == Success(SuccessStatus) && r2.response == Success(SuccessStatus) && r2.store == s0
  {
    OppositeTransferUndoes(map["A" := 100.0, "B" := 100.0], AmountTransfer("A", "B", 50.0));
  }
}
