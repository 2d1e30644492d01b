/** Get balance: a read of one user's balance row; it never writes. */
module GetBalanceAction {
  import opened Common
  import opened Store
  import opened Outcomes

  /** The success payload: the user and the stored balance. */
  datatype View = View(user: UserId, balance: Cents)

  function Execute(l: Ledger, user: UserId): (r: Outcome<View>)
    ensures r.Ok? <==> user in l.balances
    ensures r.Ok? ==> r.data.user == user && r.data.balance == l.balances[user]
    ensures !r.Ok? ==> r == NoBalanceRecord && StatusCode(r) == 404
  {
    match Find(l, user)
    case None => NoBalanceRecord
    case Some(balance) => Ok(View(user, balance))
  }

  /** In a valid ledger the reported balance is never negative and equals the
      signed sum of the user's records; a user without a balance row has no
      records at all. */
  lemma ReportsAuditedBalance(l: Ledger, user: UserId)
    requires Valid(l)
    ensures var r := Execute(l, user);
      && (r.Ok? ==> r.data.balance >= 0 && r.data.balance == UserNet(l.txs, user))
      && (!r.Ok? ==> forall i :: 0 <= i < |l.txs| ==> l.txs[i].user != user)
  {
  }
}
