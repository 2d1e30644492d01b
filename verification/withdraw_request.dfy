/** The withdraw request's rules: an existing user, an amount of at least one
    cent, and an optional comment of at most 255 characters. */
module WithdrawRequest {
  import opened Common
  import opened Validation

  /** The request body as it arrives: any field may be missing. */
  datatype Input = Input(userId: Option<int>, amount: Option<Cents>, comment: Option<string>)

  /** What the action receives once the rules pass. */
  datatype Dto = Dto(user: UserId, amount: Cents, comment: Option<string>)

  function Violations(input: Input, users: set<UserId>): set<Violation>
  {
    UserRules(UserIdField, input.userId, users)
      + AmountRules(input.amount)
      + CommentRules(input.comment)
  }

  /** The request passes exactly when every rule holds, and then its payload
      meets the withdraw action's precondition. */
  function Validate(input: Input, users: set<UserId>): (r: Validated<Dto>)
    ensures r.Accepted? <==>
      && input.userId.Some? && input.userId.value in users
      && input.amount.Some? && input.amount.value >= MinAmountCents
      && (input.comment.None? || |input.comment.value| <= MaxCommentLength)
    ensures r.Accepted? ==>
      && r.dto == Dto(input.userId.value, input.amount.value, input.comment)
      && r.dto.amount > 0
    ensures r.Rejected? ==> r.violations != {}
    ensures r.Rejected? ==>
      && (Required(UserIdField) in r.violations <==> input.userId.None?)
      && (UnknownUser(UserIdField) in r.violations <==> input.userId.Some? && input.userId.value !in users)
      && (Required(AmountField) in r.violations <==> input.amount.None?)
      && (BelowMinimum(AmountField) in r.violations <==>
            input.amount.Some? && input.amount.value < MinAmountCents)
      && (TooLong(CommentField) in r.violations <==>
            input.comment.Some? && |input.comment.value| > MaxCommentLength)
    ensures r.Rejected? ==> forall v :: v in r.violations ==>
      v in {Required(UserIdField), UnknownUser(UserIdField), Required(AmountField),
            BelowMinimum(AmountField), TooLong(CommentField)}
  {
    var v := Violations(input, users);
    if v == {} then Accepted(Dto(input.userId.value, input.amount.value, input.comment))
    else Rejected(v)
  }
}
