/**
 The transfer coordinator of the accounts service: account resolution with
 not-found translation, validation of the pair of accounts, the funds check,
 the two-entry batch update and the mapping of the repository's reply to a
 status string. The whole call, lookups included, is one atomic step here.
 */
module AccountsService {
  import opened Wrappers
  import opened Accounts
  import opened Exceptions
  import Repo = AccountRepository

  /** Status returned when the repository reports the batch as applied. */
  const SuccessStatus: string := "Successfully transferred"

  /** Status returned (not thrown) when the repository reports the batch as not applied. */
  const RetryStatus: string := "Some Error occured while transferring amount. Please try again."

  /**
   Everything observable about one call of `TransferAmount`: the returned
   status or thrown error, the batch handed to the repository (`None` when no
   update was issued), and the store afterwards.
   */
  datatype TransferOutcome = TransferOutcome(
    response: Result<string, Error>,
    batch: Option<seq<AccountUpdate>>,
    store: Store)

  /** Looks an account up, turning the repository's `null` into `AccountNotFound`. */
  function GetAccount(store: Store, id: Id): (r: Result<Account, Error>)
    ensures r.Success? <==> id in store
    ensures r.Success? ==> r.value == Account(id, store[id])
    ensures r.Failure? ==> r.error == AccountNotFound(NotFoundMessage(id))
  {
    match Repo.GetAccount(store, id)
    case None => Failure(AccountNotFound(NotFoundMessage(id)))
    case Some(account) => Success(account)
  }

  /** Rejects a missing account (defensively) and a transfer from an account to itself. */
  function Validate(from: Option<Account>, to: Option<Account>): (r: Outcome<Error>)
    ensures r.Pass? <==> from.Some? && to.Some? && from.value.accountId != to.value.accountId
    ensures r.Fail? && (from.None? || to.None?) ==> r.error == AccountNotFound(CheckDetailsMessage)
    ensures r.Fail? && from.Some? && to.Some? ==> r.error == TransferBetweenSameAccount(SelfTransferMessage)
  {
    if from.None? || to.None? then Fail(AccountNotFound(CheckDetailsMessage))
    else if from.value.accountId == to.value.accountId then Fail(TransferBetweenSameAccount(SelfTransferMessage))
    else Pass
  }

  /** True iff debiting `amount` leaves the account's balance at zero or above. */
  function EnoughFunds(account: Account, amount: real): (r: bool)
    ensures r <==> amount <= account.balance
  {
    account.balance - amount >= 0.0
  }

  /** The batch a transfer hands to the repository: debit the source, credit the destination. */
  function TransferBatch(from: Id, to: Id, amount: real): (b: seq<AccountUpdate>)
    ensures |b| == 2
    ensures SumDeltas(b) == 0.0
    ensures forall id :: Mentions(b, id) <==> id == from || id == to
    ensures b[0].accountId == from && b[1].accountId == to
    ensures b[0].delta == -amount && b[1].delta == amount
  {
    var b := [AccountUpdate(from, -amount), AccountUpdate(to, amount)];
    assert b[0].accountId == from && b[1].accountId == to;
    assert Mentions(b, from) && Mentions(b, to);
    assert b[1..] == [b[1]] && b[1..][1..] == [];
    assert SumDeltas(b[1..][1..]) == 0.0;
    assert SumDeltas(b[1..]) == amount;
    b
  }

  /**
   Transfers `transfer.amount` from one account to the other. The source is
   resolved before the destination; then the pair is validated; then the
   funds of the source (as read by the lookup) are checked; only then is the
   batch issued. `storeOk` is the repository's verdict on the batch.
   */
  function TransferAmount(store: Store, transfer: AmountTransfer, storeOk: bool): (r: TransferOutcome)
    // an update is issued exactly on the paths that do not throw
    ensures r.batch.Some? <==> r.response.Success?
    ensures r.response.Failure? ==> r.store == store
    ensures r.batch.Some? ==>
      && transfer.accountFromId in store
      && transfer.accountToId in store
      && transfer.accountFromId != transfer.accountToId
      && transfer.amount <= store[transfer.accountFromId]
      && r.batch.value == TransferBatch(transfer.accountFromId, transfer.accountToId, transfer.amount)
    ensures r.response.Success? ==> (r.response.value == SuccessStatus <==> storeOk)
    ensures r.response.Success? && !storeOk ==> r.response.value == RetryStatus && r.store == store
    // conservation and frame hold on every path
    ensures r.store.Keys == store.Keys
    ensures Total(r.store) == Total(store)
    ensures forall id :: id in store && id != transfer.accountFromId && id != transfer.accountToId
                         ==> r.store[id] == store[id]
  {
    match GetAccount(store, transfer.accountFromId)
    case Failure(e) => TransferOutcome(Failure(e), None, store)
    case Success(from) =>
      match GetAccount(store, transfer.accountToId)
      case Failure(e) => TransferOutcome(Failure(e), None, store)
      case Success(to) =>
        var amount := transfer.amount;
        match Validate(Some(from), Some(to))
        case Fail(e) => TransferOutcome(Failure(e), None, store)
        case Pass =>
          if !EnoughFunds(from, transfer.amount) then
            TransferOutcome(Failure(NotEnoughFunds(NotEnoughFundsMessage(from.accountId))), None, store)
          else
            var batch := TransferBatch(from.accountId, to.accountId, amount);
            var (successful, after) := Repo.UpdateAccounts(store, batch, storeOk);
            var status := if successful then SuccessStatus else RetryStatus;
            TransferOutcome(Success(status), Some(batch), after)
  }
}
