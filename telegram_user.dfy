/** The bot's users: an allow-listed Telegram ID with a role. */
module TelegramUsers {
  import opened Wrappers

  /** The role every authenticated user gets. */
  const DEFAULT_ROLE: string := "Data Manager"

  datatype TelegramUser = TelegramUser(userId: int, role: string)

  /** TelegramUser(user_id, role="Data Manager"). */
  function NewUser(userId: int, role: string := DEFAULT_ROLE): (u: TelegramUser)
    ensures u.userId == userId && u.role == role
  {
    TelegramUser(userId, role)
  }

  /** auth: scans the allow-list and returns a user for the first entry equal to the ID. */
  method Auth(userId: int, idList: seq<int>) returns (u: Option<TelegramUser>)
    ensures u.Some? <==> userId in idList
    ensures u.Some? ==> u.value == NewUser(userId)
  {
    for i := 0 to |idList|
      invariant userId !in idList[..i]
    {
      if idList[i] == userId {
        return Some(NewUser(userId));
      }
    }
    assert idList[..|idList|] == idList;
    return None;
  }
}
