/** The path from a request to the ledger: the validator runs first, and an
    action is only reached with a payload that passed it. Also replays a
    whole history of requests, to state what holds after any history. */
module Dispatch {
  import opened Common
  import opened Sums
  import opened Store
  import opened Outcomes
  import opened Validation
  import DepositAction
  import WithdrawAction
  import TransferAction
  import GetBalanceAction
  import WithdrawRequest
  import TransferRequest

  datatype Request =
    | DepositReq(user: UserId, amount: Cents, comment: Option<string>)
    | WithdrawReq(withdraw: WithdrawRequest.Input)
    | TransferReq(transfer: TransferRequest.Input)
    | BalanceReq(user: UserId)

  /** The status a request that fails validation is answered with. */
  const Unprocessable: int := 422

  /** The status of the reply and the ledger after the request. */
  datatype Response = Response(status: int, ledger: Ledger)

  /** Validate, then run the action. Deposits are only guarded by a positive
      amount, the one deposit rule this model takes as given. */
  function Handle(l: Ledger, users: set<UserId>, req: Request): (r: Response)
    ensures r.status in {200, 404, 409, Unprocessable, 500}
    ensures r.status != 200 ==> r.ledger == l
    ensures req.BalanceReq? ==> r.ledger == l
    ensures req.WithdrawReq? ==>
      (r.status == Unprocessable <==> WithdrawRequest.Violations(req.withdraw, users) != {})
    ensures req.TransferReq? ==>
      (r.status == Unprocessable <==> TransferRequest.Violations(req.transfer, users) != {})
    ensures (req.TransferReq? && req.transfer.fromUserId.Some? &&
             req.transfer.fromUserId == req.transfer.toUserId) ==> r.status == Unprocessable
  {
    match req
    case DepositReq(user, amount, comment) =>
      if amount < MinAmountCents then Response(Unprocessable, l)
      else
        var s := DepositAction.Execute(l, user, amount, comment);
        Response(StatusCode(s.outcome), s.ledger)
    case WithdrawReq(input) =>
      (match WithdrawRequest.Validate(input, users)
       case Rejected(_) => Response(Unprocessable, l)
       case Accepted(dto) =>
         var s := WithdrawAction.Execute(l, dto.user, dto.amount, dto.comment);
         Response(StatusCode(s.outcome), s.ledger))
    case TransferReq(input) =>
      (match TransferRequest.Validate(input, users)
       case Rejected(_) => Response(Unprocessable, l)
       case Accepted(dto) =>
         var s := TransferAction.Execute(l, dto.from, dto.to, dto.amount, dto.comment);
         Response(StatusCode(s.outcome), s.ledger))
    case BalanceReq(user) =>
      Response(StatusCode(GetBalanceAction.Execute(l, user)), l)
  }

  /** Every request takes a valid ledger to a valid ledger. */
  lemma HandlePreservesValid(l: Ledger, users: set<UserId>, req: Request)
    requires Valid(l)
    ensures Valid(Handle(l, users, req).ledger)
  {
    match req
    case DepositReq(user, amount, comment) =>
      if amount >= MinAmountCents {
        DepositAction.PreservesValid(l, user, amount, comment);
      }
    case WithdrawReq(input) =>
      var v := WithdrawRequest.Validate(input, users);
      if v.Accepted? {
        WithdrawAction.PreservesValid(l, v.dto.user, v.dto.amount, v.dto.comment);
      }
    case TransferReq(input) =>
      var v := TransferRequest.Validate(input, users);
      if v.Accepted? {
        TransferAction.PreservesValid(l, v.dto.from, v.dto.to, v.dto.amount, v.dto.comment);
      }
    case BalanceReq(_) =>
  }

  /** A transfer request that gets through never changes the total of all balances. */
  lemma TransferRequestConserves(l: Ledger, users: set<UserId>, input: TransferRequest.Input)
    ensures Total(Handle(l, users, TransferReq(input)).ledger.balances) == Total(l.balances)
  {
    var v := TransferRequest.Validate(input, users);
    if v.Accepted? {
      TransferAction.ConservesTotal(l, v.dto.from, v.dto.to, v.dto.amount, v.dto.comment);
    }
  }

  /** The ledger after serving `reqs` one after another, starting from `l`. */
  function Replay(l: Ledger, users: set<UserId>, reqs: seq<Request>): Ledger
  {
    if |reqs| == 0 then l
    else Handle(Replay(l, users, reqs[..|reqs| - 1]), users, reqs[|reqs| - 1]).ledger
  }

  /** Any history of requests keeps a valid ledger valid. */
  lemma {:induction false} ReplayPreservesValid(l: Ledger, users: set<UserId>, reqs: seq<Request>)
    requires Valid(l)
    ensures Valid(Replay(l, users, reqs))
  {
    if |reqs| > 0 {
      ReplayPreservesValid(l, users, reqs[..|reqs| - 1]);
      HandlePreservesValid(Replay(l, users, reqs[..|reqs| - 1]), users, reqs[|reqs| - 1]);
    }
  }

  /** After any history starting from an empty database: no balance is
      negative, all balances together hold exactly what was deposited minus
      what was withdrawn, every balance matches its owner's records, and every
      transfer leg is stored beside its partner, linked both ways, with the
      same amount. */
  lemma History(users: set<UserId>, reqs: seq<Request>)
    ensures var l := Replay(Empty(), users, reqs);
      && (forall u :: u in l.balances ==> l.balances[u] >= 0)
      && Total(l.balances) == ExternalNet(l.txs)
      && (forall u :: u in l.balances ==> l.balances[u] == UserNet(l.txs, u))
      && WellFormedRecords(l.txs, l.nextId)
  {
    EmptyIsValid();
    ReplayPreservesValid(Empty(), users, reqs);
  }

  /** A deposit request with a positive amount is served by the deposit action. */
  lemma HandleDeposit(l: Ledger, users: set<UserId>, user: UserId, amount: Cents, comment: Option<string>)
    requires amount >= MinAmountCents
    ensures Handle(l, users, DepositReq(user, amount, comment)).ledger
         == DepositAction.Execute(l, user, amount, comment).ledger
  {
  }

  /** `n` identical deposit requests. */
  function Deposits(user: UserId, amount: Cents, n: nat): (reqs: seq<Request>)
    ensures |reqs| == n
  {
    seq(n, _ => DepositReq(user, amount, None))
  }

  /** Serving the deposit requests one by one from an empty database. */
  function DepositHistory(users: set<UserId>, user: UserId, amount: Cents, n: nat): Ledger
  {
    Replay(Empty(), users, Deposits(user, amount, n))
  }

  /** One more deposit request on top of a history of them is one more deposit action. */
  lemma DepositHistoryStep(users: set<UserId>, user: UserId, amount: Cents, n: nat)
    requires MinAmountCents <= amount && n > 0
    ensures DepositHistory(users, user, amount, n)
         == DepositAction.Execute(DepositHistory(users, user, amount, n - 1), user, amount, None).ledger
  {
    var reqs := Deposits(user, amount, n);
    assert reqs[..n - 1] == Deposits(user, amount, n - 1);
    HandleDeposit(DepositHistory(users, user, amount, n - 1), users, user, amount, None);
  }

  /** A deposit on top of `n - 1` deposits of the same amount into one user
      gives the ledger of `n` such deposits. */
  lemma DepositExtends(prev: Ledger, user: UserId, amount: Cents, n: nat)
    requires MinAmountCents <= amount <= MaxAmountCents && n > 0
    requires prev.balances == (if n - 1 == 0 then map[] else map[user := (n - 1) * amount])
    requires |prev.txs| == n - 1 && prev.nextId == n
    requires forall i :: 0 <= i < n - 1 ==> prev.txs[i] == Tx(i + 1, user, Deposit, amount, None, None)
    ensures var l := DepositAction.Execute(prev, user, amount, None).ledger;
      && l.balances == map[user := n * amount]
      && |l.txs| == n
      && l.nextId == n + 1
      && forall i :: 0 <= i < n ==> l.txs[i] == Tx(i + 1, user, Deposit, amount, None, None)
  {
    assert (n - 1) * amount + amount == n * amount;
  }

  /** `n` deposits of `amount` into one user, starting from an empty
      database, leave exactly `n` times the amount and `n` deposit records. */
  lemma {:induction false} RepeatedDeposits(users: set<UserId>, user: UserId, amount: Cents, n: nat)
    requires MinAmountCents <= amount <= MaxAmountCents
    ensures var l := DepositHistory(users, user, amount, n);
      && l.balances == (if n == 0 then map[] else map[user := n * amount])
      && |l.txs| == n
      && l.nextId == n + 1
      && forall i :: 0 <= i < n ==> l.txs[i] == Tx(i + 1, user, Deposit, amount, None, None)
  {
    if n > 0 {
      RepeatedDeposits(users, user, amount, n - 1);
      DepositHistoryStep(users, user, amount, n);
      DepositExtends(DepositHistory(users, user, amount, n - 1), user, amount, n);
    }
  }
}
