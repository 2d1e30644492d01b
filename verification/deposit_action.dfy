/** Deposit: credit a user, creating the balance row at 0 when it is missing,
    and append one `deposit` record, all in one database transaction. */
module DepositAction {
  import opened Common
  import opened Sums
  import opened Store
  import opened Outcomes

  /** The success payload: the user, the new balance and the amount deposited. */
  datatype Receipt = Receipt(user: UserId, balance: Cents, depositedAmount: Cents)

  /** The action, step by step as the code performs it; a failed insert rolls
      the whole unit back. */
  function Execute(l: Ledger, user: UserId, amount: Cents, comment: Option<string>): (r: Step<Receipt>)
    requires amount > 0
    ensures r.outcome.Ok? <==> FitsColumns(amount, comment)
    ensures !r.outcome.Ok? ==> r.outcome == Failed && r.ledger == l
    ensures r.outcome.Ok? ==>
      && r.ledger.balances == l.balances[user := BalanceOrZero(l, user) + amount]
      && r.ledger.txs == l.txs + [Tx(l.nextId, user, Deposit, amount, comment, None)]
      && r.ledger.nextId == l.nextId + 1
      && r.outcome.data == Receipt(user, r.ledger.balances[user], amount)
  {
    var withRow := FirstOrCreate(l, user);
    var credited := Save(withRow, user, withRow.balances[user] + amount);
    match Create(credited, user, Deposit, amount, comment, None)
    case None => Step(Failed, l)
    case Some(ins) => Step(Ok(Receipt(user, credited.balances[user], amount)), ins.ledger)
  }

  /** A deposit takes a valid ledger to a valid ledger: balances stay
      non-negative, the audit trail stays well formed and in step with the
      balances, and the total grows by exactly the amount deposited. */
  lemma PreservesValid(l: Ledger, user: UserId, amount: Cents, comment: Option<string>)
    requires Valid(l) && amount > 0
    ensures Valid(Execute(l, user, amount, comment).ledger)
  {
    var r := Execute(l, user, amount, comment);
    if r.outcome.Ok? {
      CommitSingle(l, r.ledger, Tx(l.nextId, user, Deposit, amount, comment, None));
    }
  }

  /** The total of all balances grows by exactly the amount of a successful
      deposit, and is untouched otherwise. */
  lemma {:induction false} AddsToTotal(l: Ledger, user: UserId, amount: Cents, comment: Option<string>)
    requires amount > 0
    ensures var r := Execute(l, user, amount, comment);
      Total(r.ledger.balances) == Total(l.balances) + (if r.outcome.Ok? then amount else 0)
  {
    var r := Execute(l, user, amount, comment);
    if r.outcome.Ok? {
      TotalUpdate(l.balances, user, BalanceOrZero(l, user) + amount);
    }
  }
}
