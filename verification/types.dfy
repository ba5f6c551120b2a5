/** The records the client exchanges with its backend and keeps in its files. */
module Types {

  /** The session's identity read from token.json. */
  datatype TokenData = TokenData(token: string, expiresIn: string, userId: string, username: string)

  /**
   * A friend as the get_friends API reports it, with the legacy fields of
   * friends.json kept for compatibility.
   */
  datatype Friend = Friend(
    friendId: string,
    friendUsername: string,
    friendshipDate: string,
    friendshipId: int,
    userId: string,
    username: string)
  {
    /** The API's friend_id, or the legacy user_id when the API left it empty. */
    function GetUserID(): (id: string)
      ensures friendId != "" ==> id == friendId
      ensures friendId == "" ==> id == userId
      ensures id == "" <==> friendId == "" && userId == ""
    {
      if friendId != "" then friendId else userId
    }

    /** The API's friend_username, or the legacy username when the API left it empty. */
    function GetUsername(): (name: string)
      ensures friendUsername != "" ==> name == friendUsername
      ensures friendUsername == "" ==> name == username
      ensures name == "" <==> friendUsername == "" && username == ""
    {
      if friendUsername != "" then friendUsername else username
    }
  }

  /** An entry of the legacy friends.json file. */
  datatype FriendEntry = FriendEntry(userId: string, username: string, addedAt: string)

  /** A legacy entry read through the unified type: only the legacy fields are set. */
  function FromLegacy(e: FriendEntry): Friend {
    Friend("", "", "", 0, e.userId, e.username)
  }

  /** The fallbacks make the unified type answer for a legacy entry exactly as the entry itself does. */
  lemma LegacyEntriesKeepTheirIdentity(e: FriendEntry)
    ensures FromLegacy(e).GetUserID() == e.userId
    ensures FromLegacy(e).GetUsername() == e.username
  {
  }

  /** API fields win over legacy fields whenever the API filled them in. */
  lemma ApiFieldsTakePrecedence(f: Friend)
    requires f.friendId != "" && f.friendUsername != ""
    ensures f.GetUserID() == f.friendId && f.GetUsername() == f.friendUsername
  {
  }

  /** One message of a conversation. */
  datatype Message = Message(
    direction: string,
    isRead: bool,
    text: string,
    messageId: int,
    recipient: string,
    sender: string,
    timestamp: string)

  /** An incoming or outgoing friend request. */
  datatype FriendRequest = FriendRequest(
    recipientUserId: string,
    recipientUsername: string,
    requestData: string,
    requestId: int,
    senderUserId: string,
    senderUsername: string,
    status: string,
    timestamp: string)
}
