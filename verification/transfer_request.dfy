/** The transfer request's rules: two existing users that differ, an amount
    of at least one cent, and an optional comment of at most 255 characters. */
module TransferRequest {
  import opened Common
  import opened Validation

  /** The request body as it arrives: any field may be missing. */
  datatype Input = Input(
    fromUserId: Option<int>,
    toUserId: Option<int>,
    amount: Option<Cents>,
    comment: Option<string>)

  /** What the action receives once the rules pass. */
  datatype Dto = Dto(from: UserId, to: UserId, amount: Cents, comment: Option<string>)

  /** `different:from_user_id` on the receiver: only checked when both ids are
      present, and failing when they are equal. */
  function DifferentRule(input: Input): (r: set<Violation>)
    ensures r <= {SameUser}
    ensures r == {} <==>
      input.fromUserId.None? || input.toUserId.None? || input.fromUserId.value != input.toUserId.value
  {
    if input.toUserId.Some? && input.fromUserId.Some? && input.toUserId.value == input.fromUserId.value
    then {SameUser}
    else {}
  }

  function Violations(input: Input, users: set<UserId>): set<Violation>
  {
    UserRules(FromUserIdField, input.fromUserId, users)
      + UserRules(ToUserIdField, input.toUserId, users)
      + DifferentRule(input)
      + AmountRules(input.amount)
      + CommentRules(input.comment)
  }

  /** Each violation of a transfer request names the one rule it comes from. */
  lemma ViolationReasons(input: Input, users: set<UserId>)
    ensures var v := Violations(input, users);
      && (Required(FromUserIdField) in v <==> input.fromUserId.None?)
      && (UnknownUser(FromUserIdField) in v <==> input.fromUserId.Some? && input.fromUserId.value !in users)
      && (Required(ToUserIdField) in v <==> input.toUserId.None?)
      && (UnknownUser(ToUserIdField) in v <==> input.toUserId.Some? && input.toUserId.value !in users)
      && (SameUser in v <==>
            input.fromUserId.Some? && input.toUserId.Some? && input.fromUserId.value == input.toUserId.value)
      && (Required(AmountField) in v <==> input.amount.None?)
      && (BelowMinimum(AmountField) in v <==> input.amount.Some? && input.amount.value < MinAmountCents)
      && (TooLong(CommentField) in v <==> input.comment.Some? && |input.comment.value| > MaxCommentLength)
      && v <= {Required(FromUserIdField), UnknownUser(FromUserIdField), Required(ToUserIdField),
               UnknownUser(ToUserIdField), SameUser, Required(AmountField), BelowMinimum(AmountField),
               TooLong(CommentField)}
  {
    var from := UserRules(FromUserIdField, input.fromUserId, users);
    var to := UserRules(ToUserIdField, input.toUserId, users);
    var same := DifferentRule(input);
    var amount := AmountRules(input.amount);
    var comment := CommentRules(input.comment);
    assert Violations(input, users) == from + to + same + amount + comment;
  }

  /** The request passes exactly when every rule holds, and then its payload
      meets the transfer action's precondition, `from != to` included. */
  function Validate(input: Input, users: set<UserId>): (r: Validated<Dto>)
    ensures r.Accepted? <==>
      && input.fromUserId.Some? && input.fromUserId.value in users
      && input.toUserId.Some? && input.toUserId.value in users
      && input.toUserId.value != input.fromUserId.value
      && input.amount.Some? && input.amount.value >= MinAmountCents
      && (input.comment.None? || |input.comment.value| <= MaxCommentLength)
    ensures r.Accepted? ==>
      && r.dto == Dto(input.fromUserId.value, input.toUserId.value, input.amount.value, input.comment)
      && r.dto.amount > 0 && r.dto.from != r.dto.to
    ensures r.Rejected? ==> r.violations != {}
    ensures r.Rejected? ==>
      && (Required(FromUserIdField) in r.violations <==> input.fromUserId.None?)
      && (UnknownUser(FromUserIdField) in r.violations <==>
            input.fromUserId.Some? && input.fromUserId.value !in users)
      && (Required(ToUserIdField) in r.violations <==> input.toUserId.None?)
      && (UnknownUser(ToUserIdField) in r.violations <==>
            input.toUserId.Some? && input.toUserId.value !in users)
      && (SameUser in r.violations <==>
            input.fromUserId.Some? && input.toUserId.Some? && input.fromUserId.value == input.toUserId.value)
      && (Required(AmountField) in r.violations <==> input.amount.None?)
      && (BelowMinimum(AmountField) in r.violations <==>
            input.amount.Some? && input.amount.value < MinAmountCents)
      && (TooLong(CommentField) in r.violations <==>
            input.comment.Some? && |input.comment.value| > MaxCommentLength)
    ensures r.Rejected? ==> forall v :: v in r.violations ==>
      v in {Required(FromUserIdField), UnknownUser(FromUserIdField), Required(ToUserIdField),
            UnknownUser(ToUserIdField), SameUser, Required(AmountField), BelowMinimum(AmountField),
            TooLong(CommentField)}
  {
    ViolationReasons(input, users);
    var v := Violations(input, users);
    if v == {} then Accepted(Dto(input.fromUserId.value, input.toUserId.value, input.amount.value, input.comment))
    else Rejected(v)
  }

  /** A request naming the same user on both sides is always rejected, with
      the same-user violation among its reasons. */
  lemma SameUserRejected(input: Input, users: set<UserId>)
    requires input.fromUserId.Some? && input.fromUserId == input.toUserId
    ensures Validate(input, users).Rejected?
    ensures SameUser in Validate(input, users).violations
  {
  }
}
