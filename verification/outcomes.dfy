/** What an action hands back: its data on success, or one of the domain
    errors, or the failure that made the store roll back. */
module Outcomes {
  import opened Common
  import opened Store

  datatype Outcome<+T> =
    | Ok(data: T)
    | NoBalanceRecord
    | InsufficientFunds(current: Cents, requested: Cents)
    | Failed

  /** The HTTP status each outcome is reported with. */
  function StatusCode<T>(o: Outcome<T>): (r: int)
    ensures r == 200 <==> o.Ok?
    ensures r == 404 <==> o.NoBalanceRecord?
    ensures r == 409 <==> o.InsufficientFunds?
    ensures r == 500 <==> o.Failed?
  {
    match o
    case Ok(_) => 200
    case NoBalanceRecord => 404
    case InsufficientFunds(_, _) => 409
    case Failed => 500
  }

  /** One atomic transition: the outcome and the ledger state after commit or rollback. */
  datatype Step<+T> = Step(outcome: Outcome<T>, ledger: Ledger)
}
