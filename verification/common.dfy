/** Vocabulary shared by the balance module: identifiers, money in cents,
    an optional value, and the limits the stored columns and the request
    validators impose. */
module Common {

  /** A value that may be absent (a nullable column or an optional request field). */
  datatype Option<+T> = None | Some(value: T)

  /** Primary key of a user. */
  type UserId = int

  /** Money as a whole number of cents: balances and amounts are stored with scale 2. */
  type Cents = int

  /** Primary key of a transaction record, handed out by the auto-increment counter. */
  type TxId = nat

  /** Largest magnitude a decimal(15, 2) amount column holds, in cents. */
  const MaxAmountCents: int := 999_999_999_999_999

  /** A string column holds at most 255 characters; the validators use the same cap. */
  const MaxCommentLength: nat := 255

  /** The validators' `min:0.01` on amounts, in cents. */
  const MinAmountCents: int := 1
}
