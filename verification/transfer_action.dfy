/** Transfer: move money from a sender who has a balance row holding at
    least the amount to a receiver (whose row is created at 0 if missing),
    and append a `transfer_out` and a `transfer_in` record that point at each
    other, all in one database transaction. */
module TransferAction {
  import opened Common
  import opened Sums
  import opened Store
  import opened Outcomes

  /** The success payload: both users, the amount and both new balances. */
  datatype Receipt = Receipt(
    from: UserId,
    to: UserId,
    amount: Cents,
    senderNewBalance: Cents,
    receiverNewBalance: Cents)

  /** The action exactly as the code performs it. The receiver's row is read
      into its own copy before the sender's debit is saved, and each copy is
      then written back; the out-leg is stored first, then the in-leg pointing
      at it, then the out-leg is linked back to the in-leg. Nothing here
      compares `from` with `to`. */
  function Run(l: Ledger, from: UserId, to: UserId, amount: Cents, comment: Option<string>): (r: Step<Receipt>)
    requires amount > 0
    ensures from !in l.balances ==> r == Step(NoBalanceRecord, l)
    ensures from in l.balances && l.balances[from] < amount ==>
      r == Step(InsufficientFunds(l.balances[from], amount), l)
    ensures r.outcome.Ok? <==> from in l.balances && amount <= l.balances[from] && FitsColumns(amount, comment)
    ensures !r.outcome.Ok? ==> r.ledger == l
  {
    match Find(l, from)
    case None => Step(NoBalanceRecord, l)
    case Some(sender) =>
      if sender < amount then Step(InsufficientFunds(sender, amount), l)
      else
        var withRow := FirstOrCreate(l, to);
        var receiver := withRow.balances[to];
        var debited := Save(withRow, from, sender - amount);
        var credited := Save(debited, to, receiver + amount);
        match Create(credited, from, TransferOut, amount, comment, None)
        case None => Step(Failed, l)
        case Some(out) =>
          match Create(out.ledger, to, TransferIn, amount, comment, Some(out.id))
          case None => Step(Failed, l)
          case Some(incoming) =>
            var linked := SetRelated(incoming.ledger, |credited.txs|, incoming.id);
            Step(Ok(Receipt(from, to, amount, sender - amount, receiver + amount)), linked)
  }

  /** The action as callers reach it: the request validator has already
      rejected `from == to`, and the amount is at least one cent. */
  function Execute(l: Ledger, from: UserId, to: UserId, amount: Cents, comment: Option<string>): (r: Step<Receipt>)
    requires amount > 0 && from != to
    ensures from !in l.balances ==> r == Step(NoBalanceRecord, l)
    ensures from in l.balances && l.balances[from] < amount ==>
      r == Step(InsufficientFunds(l.balances[from], amount), l)
    ensures from in l.balances && l.balances[from] >= amount && !FitsColumns(amount, comment) ==>
      r == Step(Failed, l)
    ensures r.outcome.Ok? <==> from in l.balances && amount <= l.balances[from] && FitsColumns(amount, comment)
    ensures r.outcome.Ok? ==>
      var n := l.nextId;
      && r.ledger.balances == l.balances[from := l.balances[from] - amount]
                                        [to := BalanceOrZero(l, to) + amount]
      && r.ledger.balances[from] >= 0
      && r.ledger.txs == l.txs + [Tx(n, from, TransferOut, amount, comment, Some(n + 1)),
                                  Tx(n + 1, to, TransferIn, amount, comment, Some(n))]
      && r.ledger.nextId == n + 2
      && r.outcome.data == Receipt(from, to, amount, r.ledger.balances[from], r.ledger.balances[to])
  {
    Run(l, from, to, amount, comment)
  }

  /** A transfer between two different users neither creates nor destroys money. */
  lemma {:induction false} ConservesTotal(l: Ledger, from: UserId, to: UserId, amount: Cents, comment: Option<string>)
    requires amount > 0 && from != to
    ensures Total(Execute(l, from, to, amount, comment).ledger.balances) == Total(l.balances)
  {
    var r := Execute(l, from, to, amount, comment);
    if r.outcome.Ok? {
      var m1 := l.balances[from := l.balances[from] - amount];
      TotalUpdate(l.balances, from, l.balances[from] - amount);
      TotalUpdate(m1, to, BalanceOrZero(l, to) + amount);
    }
  }

  /** A transfer takes a valid ledger to a valid ledger: balances stay
      non-negative, the two legs are stored side by side and linked, and the
      total is unchanged. */
  lemma PreservesValid(l: Ledger, from: UserId, to: UserId, amount: Cents, comment: Option<string>)
    requires Valid(l) && amount > 0 && from != to
    ensures Valid(Execute(l, from, to, amount, comment).ledger)
  {
    var r := Execute(l, from, to, amount, comment);
    if r.outcome.Ok? {
      var n := l.nextId;
      CommitLegs(l, r.ledger,
                 Tx(n, from, TransferOut, amount, comment, Some(n + 1)),
                 Tx(n + 1, to, TransferIn, amount, comment, Some(n)));
    }
  }

  /** Why the validator's `from != to` matters: run against a single user, the
      code's stale receiver copy overwrites the debit, so the user ends with
      the amount added rather than unchanged, the total grows by the amount,
      and the reported sender balance is not what is stored. */
  lemma {:induction false} SameUserMintsMoney(l: Ledger, user: UserId, amount: Cents, comment: Option<string>)
    requires amount > 0 && FitsColumns(amount, comment)
    requires user in l.balances && l.balances[user] >= amount
    ensures var r := Run(l, user, user, amount, comment);
      && r.outcome.Ok?
      && r.ledger.balances[user] == l.balances[user] + amount
      && Total(r.ledger.balances) == Total(l.balances) + amount
      && r.outcome.data.senderNewBalance != r.ledger.balances[user]
  {
    var r := Run(l, user, user, amount, comment);
    assert r.ledger.balances == l.balances[user := l.balances[user] + amount];
    TotalUpdate(l.balances, user, l.balances[user] + amount);
  }
}
