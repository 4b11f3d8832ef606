/**
 The three exceptions the accounts service throws, each carrying the exact
 message text the service builds.
 */
module Exceptions {
  import opened Accounts

  datatype Error =
    | AccountNotFound(message: string)
    | TransferBetweenSameAccount(message: string)
    | NotEnoughFunds(message: string)

  /** Message of the not-found error raised when a lookup answers `null`. */
  function NotFoundMessage(id: Id): string
  {
    "Account " + id + " does not exist."
  }

  /** Message of the not-found error raised by the defensive null check of `validate`. */
  const CheckDetailsMessage: string := "Please check account details."

  /** Message of the self-transfer error. */
  const SelfTransferMessage: string := "Self Transfer not permitted."

  /** Message of the insufficient-funds error, naming the source account. */
  function NotEnoughFundsMessage(id: Id): string
  {
    "Not enough funds in account " + id + ". Please check your balance."
  }

  /** The not-found message identifies the account it is about. */
  lemma NotFoundMessageInjective(a: Id, b: Id)
    ensures NotFoundMessage(a) == NotFoundMessage(b) <==> a == b
  {
    if NotFoundMessage(a) == NotFoundMessage(b) {
      var m := NotFoundMessage(a);
      assert |a| == |m| - 24 == |b|;
      assert m[8..8 + |a|] == a;
      assert NotFoundMessage(b)[8..8 + |b|] == b;
    }
  }

  /** The insufficient-funds message identifies the account it is about. */
  lemma NotEnoughFundsMessageInjective(a: Id, b: Id)
    ensures NotEnoughFundsMessage(a) == NotEnoughFundsMessage(b) <==> a == b
  {
    if NotEnoughFundsMessage(a) == NotEnoughFundsMessage(b) {
      var m := NotEnoughFundsMessage(a);
      assert |a| == |m| - 56 == |b|;
      assert m[28..28 + |a|] == a;
      assert NotEnoughFundsMessage(b)[28..28 + |b|] == b;
    }
  }

  /** No lookup failure produces the message of the defensive null check. */
  lemma CheckDetailsIsNoNotFoundMessage(id: Id)
    ensures NotFoundMessage(id) != CheckDetailsMessage
  {
    assert NotFoundMessage(id)[0] == 'A';
    assert CheckDetailsMessage[0] == 'P';
  }
}
