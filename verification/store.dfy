/** The ledger store: the balances table (one row per user) and the
    append-only transactions table, with the handful of store operations the
    actions perform, and the invariant every committed state keeps. */
module Store {
  import opened Common
  import opened Sums

  /** The four values of the `type` enum column. */
  datatype TxType = Deposit | Withdraw | TransferIn | TransferOut

  /** One row of the transactions table (timestamps are not modelled). */
  datatype Tx = Tx(
    id: TxId,
    user: UserId,
    kind: TxType,
    amount: Cents,
    comment: Option<string>,
    related: Option<TxId>)

  /** The whole persistent state: the balances table keyed by user, the
      transaction rows in insertion order, and the next auto-increment id. */
  datatype Ledger = Ledger(balances: map<UserId, Cents>, txs: seq<Tx>, nextId: TxId)

  /** A fresh database: no balances, no records, ids start at 1. */
  function Empty(): Ledger
  {
    Ledger(map[], [], 1)
  }

  /** Whether an amount and a comment can be stored: decimal(15, 2) and varchar(255). */
  predicate FitsColumns(amount: Cents, comment: Option<string>)
  {
    && -MaxAmountCents <= amount <= MaxAmountCents
    && (comment.None? || |comment.value| <= MaxCommentLength)
  }

  /** What a user's balance row holds, counting a missing row as the 0 that
      get-or-create would insert. */
  function BalanceOrZero(l: Ledger, u: UserId): Cents
  {
    if u in l.balances then l.balances[u] else 0
  }

  /** Look up a user's balance row; absent when the user never received money. */
  function Find(l: Ledger, u: UserId): (r: Option<Cents>)
    ensures r.Some? <==> u in l.balances
    ensures r.Some? ==> r.value == BalanceOrZero(l, u)
    ensures r.None? ==> BalanceOrZero(l, u) == 0
  {
    if u in l.balances then Some(l.balances[u]) else None
  }

  /** Get the user's balance row, inserting one at 0 when there is none. */
  function FirstOrCreate(l: Ledger, u: UserId): (r: Ledger)
    ensures u in r.balances && r.balances[u] == BalanceOrZero(l, u)
    ensures r.balances.Keys == l.balances.Keys + {u}
    ensures forall v :: v in l.balances ==> r.balances[v] == l.balances[v]
    ensures r.txs == l.txs && r.nextId == l.nextId
  {
    if u in l.balances then l else l.(balances := l.balances[u := 0])
  }

  /** Write a (possibly stale) copy of a balance back to the user's row. */
  function Save(l: Ledger, u: UserId, balance: Cents): (r: Ledger)
    ensures r.balances.Keys == l.balances.Keys + {u}
    ensures BalanceOrZero(r, u) == balance
    ensures forall v :: v in l.balances && v != u ==> r.balances[v] == l.balances[v]
    ensures r.txs == l.txs && r.nextId == l.nextId
  {
    l.(balances := l.balances[u := balance])
  }

  /** A stored record together with the id the store gave it. */
  datatype Inserted = Inserted(ledger: Ledger, id: TxId)

  /** Insert a transaction row under the next auto-increment id; the insert
      fails (the store raises) when the values do not fit their columns. */
  function Create(l: Ledger, user: UserId, kind: TxType, amount: Cents,
                  comment: Option<string>, related: Option<TxId>): (r: Option<Inserted>)
    ensures r.Some? <==> FitsColumns(amount, comment)
    ensures r.Some? ==>
      && r.value.id == l.nextId
      && r.value.ledger.balances == l.balances
      && r.value.ledger.txs == l.txs + [Tx(l.nextId, user, kind, amount, comment, related)]
      && r.value.ledger.nextId > r.value.id
  {
    if FitsColumns(amount, comment) then
      var t := Tx(l.nextId, user, kind, amount, comment, related);
      Some(Inserted(l.(txs := l.txs + [t], nextId := l.nextId + 1), l.nextId))
    else
      None
  }

  /** Set the link of the row at `pos` (the model instance saving its own row). */
  function SetRelated(l: Ledger, pos: nat, rel: TxId): (r: Ledger)
    requires pos < |l.txs|
    ensures |r.txs| == |l.txs|
    ensures forall k :: 0 <= k < |l.txs| && k != pos ==> r.txs[k] == l.txs[k]
    ensures r.txs[pos].related == Some(rel)
    ensures && r.txs[pos].id == l.txs[pos].id && r.txs[pos].user == l.txs[pos].user
            && r.txs[pos].kind == l.txs[pos].kind && r.txs[pos].amount == l.txs[pos].amount
            && r.txs[pos].comment == l.txs[pos].comment
    ensures r.balances == l.balances && r.nextId == l.nextId
  {
    l.(txs := l.txs[pos := l.txs[pos].(related := Some(rel))])
  }

  // ---------------------------------------------------------------------------
  // The audit trail and the invariant of committed states

  /** What one record does to its owner's balance. */
  function Effect(t: Tx): int
  {
    match t.kind
    case Deposit => t.amount
    case TransferIn => t.amount
    case Withdraw => -t.amount
    case TransferOut => -t.amount
  }

  /** The sum of the effects of `u`'s records: what `u`'s balance must hold. */
  function UserNet(txs: seq<Tx>, u: UserId): int
  {
    if |txs| == 0 then 0
    else
      var t := txs[|txs| - 1];
      UserNet(txs[..|txs| - 1], u) + (if t.user == u then Effect(t) else 0)
  }

  /** Money that entered or left the ledger: deposits minus withdrawals. */
  function ExternalNet(txs: seq<Tx>): int
  {
    if |txs| == 0 then 0
    else
      var t := txs[|txs| - 1];
      ExternalNet(txs[..|txs| - 1]) + (if IsLeg(t.kind) then 0 else Effect(t))
  }

  /** Whether a record kind is one leg of a transfer. */
  predicate IsLeg(k: TxType)
  {
    k == TransferIn || k == TransferOut
  }

  /** A deposit or withdraw record fit to be stored under `nextId`: positive,
      storable, and without a link. */
  predicate SingleRecord(t: Tx, nextId: TxId)
  {
    && t.id == nextId && !IsLeg(t.kind) && t.related == None
    && 0 < t.amount && FitsColumns(t.amount, t.comment)
  }

  /** The two legs of one transfer: out-leg and in-leg of equal amount and
      comment, between two different users, each pointing at the other. */
  predicate LinkedLegs(o: Tx, i: Tx)
  {
    && o.kind == TransferOut && i.kind == TransferIn
    && o.related == Some(i.id) && i.related == Some(o.id)
    && o.amount == i.amount && o.comment == i.comment
    && o.user != i.user
  }

  /** Shape of the transactions table: ids below the counter and increasing,
      positive amounts that fit their column, no link on deposits and
      withdrawals, and every transfer leg stored right beside its partner. */
  predicate WellFormedRecords(txs: seq<Tx>, nextId: TxId)
  {
    && 1 <= nextId
    && (forall i :: 0 <= i < |txs| ==> 1 <= txs[i].id < nextId)
    && (forall i, j :: 0 <= i < j < |txs| ==> txs[i].id < txs[j].id)
    && (forall i :: 0 <= i < |txs| ==> 0 < txs[i].amount && FitsColumns(txs[i].amount, txs[i].comment))
    && (forall i :: 0 <= i < |txs| && !IsLeg(txs[i].kind) ==> txs[i].related == None)
    && (|txs| > 0 ==> txs[0].kind != TransferIn && txs[|txs| - 1].kind != TransferOut)
    && (forall i, j :: 0 <= i < |txs| && j == i + 1 < |txs| ==>
          && (txs[i].kind == TransferOut ==> LinkedLegs(txs[i], txs[j]))
          && (txs[j].kind == TransferIn ==> LinkedLegs(txs[i], txs[j])))
  }

  /** No balance is negative. */
  predicate NonNegative(balances: map<UserId, Cents>)
  {
    forall u :: u in balances ==> balances[u] >= 0
  }

  /** Every record belongs to a user who has a balance row. */
  predicate Owned(l: Ledger)
  {
    forall i :: 0 <= i < |l.txs| ==> l.txs[i].user in l.balances
  }

  /** Every balance equals the signed sum of its owner's records. */
  predicate RunningSums(l: Ledger)
  {
    forall u :: u in l.balances ==> l.balances[u] == UserNet(l.txs, u)
  }

  /** The money held in all balances is what was deposited minus what was withdrawn. */
  ghost predicate Conserved(l: Ledger)
  {
    Total(l.balances) == ExternalNet(l.txs)
  }

  /** The invariant of every committed ledger state. */
  ghost predicate Valid(l: Ledger)
  {
    && NonNegative(l.balances)
    && WellFormedRecords(l.txs, l.nextId)
    && Owned(l)
    && RunningSums(l)
    && Conserved(l)
  }

  // ---------------------------------------------------------------------------
  // Lemmas about the audit trail

  lemma EmptyIsValid()
    ensures Valid(Empty())
  {

  }

  /** Appending a record adds its effect to its owner's running sum and to no one else's. */
  lemma UserNetAppend(txs: seq<Tx>, t: Tx, u: UserId)
    ensures UserNet(txs + [t], u) == UserNet(txs, u) + (if t.user == u then Effect(t) else 0)
  {

  }

  /** Appending a record adds its effect to the external flow only for deposits and withdrawals. */
  lemma ExternalNetAppend(txs: seq<Tx>, t: Tx)
    ensures ExternalNet(txs + [t]) == ExternalNet(txs) + (if IsLeg(t.kind) then 0 else Effect(t))
  {

  }

  /** A user who owns no record has a running sum of zero. */
  lemma {:induction false} UserNetOfStranger(txs: seq<Tx>, u: UserId)
    requires forall i :: 0 <= i < |txs| ==> txs[i].user != u
    ensures UserNet(txs, u) == 0
  {
    if |txs| > 0 {
      UserNetOfStranger(txs[..|txs| - 1], u);
    }
  }

  /** Appending one deposit or withdraw record under the next id keeps the table well formed. */
  lemma AppendSingleWellFormed(l: Ledger, l': Ledger, t: Tx)
    requires WellFormedRecords(l.txs, l.nextId) && SingleRecord(t, l.nextId)
    requires l'.txs == l.txs + [t] && l'.nextId == l.nextId + 1
    ensures WellFormedRecords(l'.txs, l'.nextId)
  {

  }

  /** Writing a non-negative value keeps every balance non-negative. */
  lemma UpdateKeepsNonNegative(m: map<UserId, Cents>, u: UserId, v: Cents)
    requires NonNegative(m) && v >= 0
    ensures NonNegative(m[u := v])
  {
  }

  /** Appending `t` and moving only its owner's balance by its effect keeps
      every balance equal to its owner's running sum. */
  lemma AppendKeepsRunningSums(l: Ledger, l': Ledger, t: Tx)
    requires Owned(l) && RunningSums(l)
    requires l'.txs == l.txs + [t]
    requires l'.balances == l.balances[t.user := BalanceOrZero(l, t.user) + Effect(t)]
    ensures RunningSums(l')
  {
    if t.user !in l.balances {
      UserNetOfStranger(l.txs, t.user);
    }
    forall u | u in l'.balances
      ensures l'.balances[u] == UserNet(l'.txs, u)
    {
      UserNetAppend(l.txs, t, u);
    }
  }

  /** Appending a record whose owner has (or gets) a balance row keeps every record owned. */
  lemma AppendKeepsOwned(l: Ledger, l': Ledger, t: Tx)
    requires Owned(l)
    requires l'.txs == l.txs + [t]
    requires l.balances.Keys + {t.user} <= l'.balances.Keys
    ensures Owned(l')
  {

  }

  /** Appending a deposit or withdraw record and moving its owner's balance
      by the record's effect keeps the total equal to deposits minus withdrawals. */
  lemma AppendSingleConserves(l: Ledger, l': Ledger, t: Tx)
    requires Conserved(l) && !IsLeg(t.kind)
    requires l'.txs == l.txs + [t]
    requires l'.balances == l.balances[t.user := BalanceOrZero(l, t.user) + Effect(t)]
    ensures Conserved(l')
  {
    ExternalNetAppend(l.txs, t);
    TotalUpdate(l.balances, t.user, BalanceOrZero(l, t.user) + Effect(t));
  }

  /** A commit that appends one deposit or withdraw record `t` and moves its
      owner's balance by the record's effect keeps the ledger valid, provided
      the new balance is not negative. */
  lemma CommitSingle(l: Ledger, l': Ledger, t: Tx)
    requires Valid(l) && SingleRecord(t, l.nextId)
    requires BalanceOrZero(l, t.user) + Effect(t) >= 0
    requires l'.txs == l.txs + [t] && l'.nextId == l.nextId + 1
    requires l'.balances == l.balances[t.user := BalanceOrZero(l, t.user) + Effect(t)]
    ensures Valid(l')
  {
    UpdateKeepsNonNegative(l.balances, t.user, BalanceOrZero(l, t.user) + Effect(t));
    AppendSingleWellFormed(l, l', t);
    AppendKeepsOwned(l, l', t);
    AppendKeepsRunningSums(l, l', t);
    AppendSingleConserves(l, l', t);
  }

  /** The two legs of a transfer fit to be stored under `nextId` and the id after it. */
  predicate LegRecords(o: Tx, i: Tx, nextId: TxId)
  {
    && o.id == nextId && i.id == nextId + 1
    && LinkedLegs(o, i)
    && 0 < o.amount && FitsColumns(o.amount, o.comment)
  }

  /** Appending two records under the next two ids keeps ids below the counter and increasing. */
  lemma AppendTwoKeepsIdOrder(txs: seq<Tx>, nextId: TxId, o: Tx, i: Tx)
    requires 1 <= nextId
    requires forall k :: 0 <= k < |txs| ==> 1 <= txs[k].id < nextId
    requires forall a, b :: 0 <= a < b < |txs| ==> txs[a].id < txs[b].id
    requires o.id == nextId && i.id == nextId + 1
    ensures forall k :: 0 <= k < |txs + [o, i]| ==> 1 <= (txs + [o, i])[k].id < nextId + 2
    ensures forall a, b :: 0 <= a < b < |txs + [o, i]| ==> (txs + [o, i])[a].id < (txs + [o, i])[b].id
  {

  }

  /** Appending an out-leg and its in-leg keeps every leg linked to its neighbour. */
  lemma AppendLegsKeepsLinks(txs: seq<Tx>, o: Tx, i: Tx)
    requires forall a, b :: 0 <= a < |txs| && b == a + 1 < |txs| ==>
      && (txs[a].kind == TransferOut ==> LinkedLegs(txs[a], txs[b]))
      && (txs[b].kind == TransferIn ==> LinkedLegs(txs[a], txs[b]))
    requires |txs| > 0 ==> txs[|txs| - 1].kind != TransferOut
    requires LinkedLegs(o, i)
    ensures forall a, b :: 0 <= a < |txs + [o, i]| && b == a + 1 < |txs + [o, i]| ==>
      && ((txs + [o, i])[a].kind == TransferOut ==> LinkedLegs((txs + [o, i])[a], (txs + [o, i])[b]))
      && ((txs + [o, i])[b].kind == TransferIn ==> LinkedLegs((txs + [o, i])[a], (txs + [o, i])[b]))
  {

  }

  /** Appending a linked out-leg/in-leg pair under the next two ids keeps the table well formed. */
  lemma AppendLegsWellFormed(l: Ledger, l': Ledger, o: Tx, i: Tx)
    requires WellFormedRecords(l.txs, l.nextId) && LegRecords(o, i, l.nextId)
    requires l'.txs == l.txs + [o, i] && l'.nextId == l.nextId + 2
    ensures WellFormedRecords(l'.txs, l'.nextId)
  {
    AppendTwoKeepsIdOrder(l.txs, l.nextId, o, i);
    AppendLegsKeepsLinks(l.txs, o, i);
    var s := l'.txs;
    var n := |l.txs|;
    assert s[n] == o && s[n + 1] == i;
    forall k | 0 <= k < |s|
      ensures 0 < s[k].amount && FitsColumns(s[k].amount, s[k].comment)
      ensures !IsLeg(s[k].kind) ==> s[k].related == None
    {
      if k < n {
        assert s[k] == l.txs[k];
      }
    }
  }

  /** Appending the two legs, when both owners have balance rows, keeps every record owned. */
  lemma AppendLegsKeepsOwned(l: Ledger, l': Ledger, o: Tx, i: Tx)
    requires Owned(l)
    requires l'.txs == l.txs + [o, i]
    requires l.balances.Keys + {o.user, i.user} <= l'.balances.Keys
    ensures Owned(l')
  {

  }

  /** Appending the two legs and moving both owners' balances by the legs'
      effects keeps every balance equal to its owner's running sum. */
  lemma AppendLegsKeepsRunningSums(l: Ledger, l': Ledger, o: Tx, i: Tx)
    requires Owned(l) && RunningSums(l)
    requires o.user in l.balances && o.user != i.user
    requires l'.txs == l.txs + [o, i]
    requires l'.balances == l.balances[o.user := l.balances[o.user] + Effect(o)]
                                      [i.user := BalanceOrZero(l, i.user) + Effect(i)]
    ensures RunningSums(l')
  {
    assert l'.txs == (l.txs + [o]) + [i];
    forall u | u in l'.balances
      ensures l'.balances[u] == UserNet(l'.txs, u)
    {
      UserNetAppend(l.txs, o, u);
      UserNetAppend(l.txs + [o], i, u);
      if u == o.user {
        assert UserNet(l.txs + [o], u) == l.balances[u] + Effect(o);
      } else if u == i.user {
        if u !in l.balances {
          UserNetOfStranger(l.txs, u);
        }
        assert UserNet(l.txs + [o], u) == BalanceOrZero(l, u);
      } else {
        assert UserNet(l.txs + [o], u) == l.balances[u];
      }
    }
  }

  /** Two legs with opposite effects, appended together, leave the total and
      the external flow where they were. */
  lemma AppendLegsConserves(l: Ledger, l': Ledger, o: Tx, i: Tx)
    requires Conserved(l) && IsLeg(o.kind) && IsLeg(i.kind) && Effect(o) + Effect(i) == 0
    requires o.user in l.balances && o.user != i.user
    requires l'.txs == l.txs + [o, i]
    requires l'.balances == l.balances[o.user := l.balances[o.user] + Effect(o)]
                                      [i.user := BalanceOrZero(l, i.user) + Effect(i)]
    ensures Conserved(l')
  {
    assert l.txs + [o, i] == (l.txs + [o]) + [i];
    ExternalNetAppend(l.txs, o);
    ExternalNetAppend(l.txs + [o], i);
    var m1 := l.balances[o.user := l.balances[o.user] + Effect(o)];
    TotalUpdate(l.balances, o.user, l.balances[o.user] + Effect(o));
    TotalUpdate(m1, i.user, BalanceOrZero(l, i.user) + Effect(i));
  }

  /** A commit that appends a linked pair of transfer legs and moves the
      sender's and the receiver's balances by the legs' effects keeps the
      ledger valid, provided the sender's new balance is not negative. */
  lemma CommitLegs(l: Ledger, l': Ledger, o: Tx, i: Tx)
    requires Valid(l) && LegRecords(o, i, l.nextId)
    requires o.user in l.balances && l.balances[o.user] + Effect(o) >= 0
    requires l'.txs == l.txs + [o, i] && l'.nextId == l.nextId + 2
    requires l'.balances == l.balances[o.user := l.balances[o.user] + Effect(o)]
                                      [i.user := BalanceOrZero(l, i.user) + Effect(i)]
    ensures Valid(l')
  {
    UpdateKeepsNonNegative(l.balances, o.user, l.balances[o.user] + Effect(o));
    UpdateKeepsNonNegative(l.balances[o.user := l.balances[o.user] + Effect(o)],
                           i.user, BalanceOrZero(l, i.user) + Effect(i));
    AppendLegsWellFormed(l, l', o, i);
    AppendLegsKeepsOwned(l, l', o, i);
    AppendLegsKeepsRunningSums(l, l', o, i);
    AppendLegsConserves(l, l', o, i);
  }

  /** Every link of a valid ledger names a stored record: the foreign key holds. */
  lemma LinksResolve(l: Ledger, i: int)
    requires Valid(l) && 0 <= i < |l.txs| && l.txs[i].related.Some?
    ensures exists j :: 0 <= j < |l.txs| && j != i && l.txs[j].id == l.txs[i].related.value
  {
    if l.txs[i].kind == TransferOut {
      assert l.txs[i + 1].id == l.txs[i].related.value;
    } else {
      assert l.txs[i - 1].id == l.txs[i].related.value;
    }
  }

  /** Ids in a valid ledger are unique. */
  lemma IdsUnique(l: Ledger, i: int, j: int)
    requires Valid(l) && 0 <= i < |l.txs| && 0 <= j < |l.txs| && i != j
    ensures l.txs[i].id != l.txs[j].id
  {
  }
}
