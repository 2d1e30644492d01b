/** The rule vocabulary of the request validators. Each rule that fails
    contributes one violation; a field that is absent is only reported as
    required, and a null comment skips its other rules. */
module Validation {
  import opened Common

  datatype Field = UserIdField | FromUserIdField | ToUserIdField | AmountField | CommentField

  datatype Violation =
    | Required(field: Field)
    | UnknownUser(field: Field)
    | SameUser
    | BelowMinimum(field: Field)
    | TooLong(field: Field)

  /** `required`, `integer`, `exists:users,id` (the integer type is carried by the model). */
  function UserRules(f: Field, v: Option<int>, users: set<UserId>): (r: set<Violation>)
    ensures r == {} <==> v.Some? && v.value in users
    ensures r <= {Required(f), UnknownUser(f)}
    ensures Required(f) in r <==> v.None?
    ensures UnknownUser(f) in r <==> v.Some? && v.value !in users
  {
    if v.None? then {Required(f)}
    else if v.value !in users then {UnknownUser(f)}
    else {}
  }

  /** `required`, `numeric`, `min:0.01` on an amount in cents. */
  function AmountRules(v: Option<Cents>): (r: set<Violation>)
    ensures r == {} <==> v.Some? && v.value >= MinAmountCents
    ensures r <= {Required(AmountField), BelowMinimum(AmountField)}
    ensures Required(AmountField) in r <==> v.None?
    ensures BelowMinimum(AmountField) in r <==> v.Some? && v.value < MinAmountCents
  {
    if v.None? then {Required(AmountField)}
    else if v.value < MinAmountCents then {BelowMinimum(AmountField)}
    else {}
  }

  /** `nullable`, `string`, `max:255` on the comment. */
  function CommentRules(v: Option<string>): (r: set<Violation>)
    ensures r == {} <==> v.None? || |v.value| <= MaxCommentLength
    ensures r <= {TooLong(CommentField)}
  {
    if v.Some? && |v.value| > MaxCommentLength then {TooLong(CommentField)} else {}
  }

  /** A validated request: its typed payload, or every rule it breaks. */
  datatype Validated<+T> = Accepted(dto: T) | Rejected(violations: set<Violation>)
}
