/** Withdraw: debit a user who has a balance row holding at least the amount,
    and append one `withdraw` record, all in one database transaction. */
module WithdrawAction {
  import opened Common
  import opened Sums
  import opened Store
  import opened Outcomes

  /** The success payload: the user, the new balance and the amount withdrawn. */
  datatype Receipt = Receipt(user: UserId, balance: Cents, withdrawnAmount: Cents)

  /** The action, step by step as the code performs it: a missing row and a
      short balance roll back with a domain error, a failed insert rolls back
      with a failure. */
  function Execute(l: Ledger, user: UserId, amount: Cents, comment: Option<string>): (r: Step<Receipt>)
    requires amount > 0
    ensures user !in l.balances ==> r == Step(NoBalanceRecord, l)
    ensures user in l.balances && l.balances[user] < amount ==>
      r == Step(InsufficientFunds(l.balances[user], amount), l)
    ensures user in l.balances && l.balances[user] >= amount && !FitsColumns(amount, comment) ==>
      r == Step(Failed, l)
    ensures r.outcome.Ok? <==> user in l.balances && amount <= l.balances[user] && FitsColumns(amount, comment)
    ensures r.outcome.Ok? ==>
      && r.ledger.balances == l.balances[user := l.balances[user] - amount]
      && r.ledger.balances[user] >= 0
      && r.ledger.txs == l.txs + [Tx(l.nextId, user, Withdraw, amount, comment, None)]
      && r.ledger.nextId == l.nextId + 1
      && r.outcome.data == Receipt(user, r.ledger.balances[user], amount)
  {
    match Find(l, user)
    case None => Step(NoBalanceRecord, l)
    case Some(current) =>
      if current < amount then Step(InsufficientFunds(current, amount), l)
      else
        var debited := Save(l, user, current - amount);
        match Create(debited, user, Withdraw, amount, comment, None)
        case None => Step(Failed, l)
        case Some(ins) => Step(Ok(Receipt(user, current - amount, amount)), ins.ledger)
  }

  /** A withdraw takes a valid ledger to a valid ledger; in particular the
      debited balance never goes below zero. */
  lemma PreservesValid(l: Ledger, user: UserId, amount: Cents, comment: Option<string>)
    requires Valid(l) && amount > 0
    ensures Valid(Execute(l, user, amount, comment).ledger)
  {
    var r := Execute(l, user, amount, comment);
    if r.outcome.Ok? {
      CommitSingle(l, r.ledger, Tx(l.nextId, user, Withdraw, amount, comment, None));
    }
  }

  /** The total of all balances shrinks by exactly the amount of a successful
      withdraw, and is untouched otherwise. */
  lemma {:induction false} TakesFromTotal(l: Ledger, user: UserId, amount: Cents, comment: Option<string>)
    requires amount > 0
    ensures var r := Execute(l, user, amount, comment);
      Total(r.ledger.balances) == Total(l.balances) - (if r.outcome.Ok? then amount else 0)
  {
    var r := Execute(l, user, amount, comment);
    if r.outcome.Ok? {
      TotalUpdate(l.balances, user, l.balances[user] - amount);
    }
  }
}
