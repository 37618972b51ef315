/** The acting user's id, read from the `X-User-Id` header
    (reading_list/api/deps.py). */
module Deps {
  import opened Domain

  /** The user acting when no header is sent. */
  const DefaultUserId: Id := 1

  const NotPositive: string := "X-User-Id must be positive integer"

  /** `get_current_user_id`: no header means user 1; a value that is not
      positive is refused with 400; a positive value is the id. */
  function CurrentUserId(header: Option<int>): (r: Result<Id>)
    ensures header.None? ==> r == Ok(DefaultUserId)
    ensures header.Some? && header.value <= 0 ==> r == Err(BadRequest(NotPositive))
    ensures header.Some? && header.value > 0 ==> r == Ok(header.value)
  {
    match header
    case None => Ok(DefaultUserId)
    case Some(v) => if v <= 0 then Err(BadRequest(NotPositive)) else Ok(v)
  }

  /** Every accepted id is strictly positive, and a header is accepted exactly
      when it is absent or positive. */
  lemma AcceptedIdsArePositive(header: Option<int>)
    ensures CurrentUserId(header).Ok? ==> CurrentUserId(header).value > 0
    ensures CurrentUserId(header).Ok? <==> header.None? || header.value > 0
    ensures CurrentUserId(header).Err? ==> HttpStatus(CurrentUserId(header).error) == 400
  {
  }
}
