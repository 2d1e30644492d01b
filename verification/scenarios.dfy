/** The feature tests' scenarios, stated over the model. User ids 1 and 2
    play the two test users; 500.00 is 50000 cents. */
module Scenarios {
  import opened Common
  import opened Store
  import opened Outcomes
  import DepositAction
  import WithdrawAction
  import TransferAction
  import GetBalanceAction
  import TransferRequest
  import Dispatch

  const Users: set<UserId> := {1, 2}

  lemma DepositIntoNewAccount()
    ensures var r := DepositAction.Execute(Empty(), 1, 50000, Some("Test deposit"));
      && r.outcome == Ok(DepositAction.Receipt(1, 50000, 50000))
      && r.ledger.balances == map[1 := 50000]
      && r.ledger.txs == [Tx(1, 1, Deposit, 50000, Some("Test deposit"), None)]
  {
  }

  lemma DepositThenWithdraw()
    ensures var d := DepositAction.Execute(Empty(), 1, 50000, None);
      var w := WithdrawAction.Execute(d.ledger, 1, 20000, Some("Test withdrawal"));
      && w.outcome == Ok(WithdrawAction.Receipt(1, 30000, 20000))
      && w.ledger.balances[1] == 30000
  {
  }

  lemma WithdrawMoreThanHeld()
    ensures var d := DepositAction.Execute(Empty(), 1, 10000, None);
      var w := WithdrawAction.Execute(d.ledger, 1, 20000, None);
      && w.outcome == InsufficientFunds(10000, 20000)
      && StatusCode(w.outcome) == 409
      && w.ledger == d.ledger
      && w.ledger.balances[1] == 10000
  {
  }

  lemma TransferBetweenUsers()
    ensures var d := DepositAction.Execute(Empty(), 1, 50000, None);
      var t := TransferAction.Execute(d.ledger, 1, 2, 15000, Some("Test transfer"));
      && t.outcome == Ok(TransferAction.Receipt(1, 2, 15000, 35000, 15000))
      && t.ledger.balances == map[1 := 35000, 2 := 15000]
      && t.ledger.txs[1] == Tx(2, 1, TransferOut, 15000, Some("Test transfer"), Some(3))
      && t.ledger.txs[2] == Tx(3, 2, TransferIn, 15000, Some("Test transfer"), Some(2))
  {
  }

  lemma TransferMoreThanHeld()
    ensures var d := DepositAction.Execute(Empty(), 1, 10000, None);
      var t := TransferAction.Execute(d.ledger, 1, 2, 20000, None);
      && t.outcome == InsufficientFunds(10000, 20000)
      && t.ledger == d.ledger
      && 2 !in t.ledger.balances
  {
  }

  lemma BalanceAfterDeposit()
    ensures var d := DepositAction.Execute(Empty(), 1, 35000, None);
      GetBalanceAction.Execute(d.ledger, 1) == Ok(GetBalanceAction.View(1, 35000))
  {
  }

  lemma BalanceWithoutRecord()
    ensures GetBalanceAction.Execute(Empty(), 1) == NoBalanceRecord
  {
  }

  lemma NegativeDepositRejected()
    ensures Dispatch.Handle(Empty(), Users, Dispatch.DepositReq(1, -10000, None))
         == Dispatch.Response(Dispatch.Unprocessable, Empty())
  {
  }

  lemma TransferToSelfRejected()
    ensures var req := Dispatch.TransferReq(TransferRequest.Input(Some(1), Some(1), Some(10000), None));
      Dispatch.Handle(Empty(), Users, req) == Dispatch.Response(Dispatch.Unprocessable, Empty())
  {
  }
}
