/**
 * The send command: a message from the command line goes to a friend
 * picked by number. The current client takes os.Args[2] and the friends
 * the backend lists; the stable copy takes os.Args[1] and the entries of
 * friends.json. A reply with status 200 counts as sent whatever its body.
 */
module Send {
  import opened Wrappers
  import opened Types
  import opened Console
  import opened Text
  import opened Selection
  import ReceiveEntry

  /** How a friend's date is listed: an empty friendship date shows as "Unknown". */
  function DateLabel(f: Friend): (shown: string)
    ensures f.friendshipDate == "" ==> shown == "Unknown"
    ensures f.friendshipDate != "" ==> shown == f.friendshipDate
  {
    if f.friendshipDate == "" then "Unknown" else f.friendshipDate
  }

  /** sendMessage's verdict on the reply: status 200 is success, whether or not the body decodes. */
  predicate SendAccepted(r: Reply) {
    r.Response? && r.status == 200
  }

  datatype Sent = UsageShown | FriendsUnavailable | NoFriendsListed | NotSelected | SendRejected | Posted

  /**
   * The current client's send command, given the friends the backend
   * listed (None: the listing failed).
   */
  function SendCurrent(w: World, args: seq<string>, friends: Option<seq<Friend>>): (res: (Sent, World))
    ensures Grows(w, res.1)
  {
    if |args| < 3 then
      FailWith(w, Usage);
      (UsageShown, w.Say(Usage).Exit(1))
    else SendTo(w, args[2], friends)
  }

  /** Everything after the message is known: the friends, the choice, the send. */
  function SendTo(w: World, message: string, friends: Option<seq<Friend>>): (res: (Sent, World))
    ensures Grows(w, res.1)
    ensures res.0 != UsageShown
  {
    if friends.None? then
      FailWith(w, ListingFailed);
      (FriendsUnavailable, w.Say(ListingFailed).Exit(1))
    else if friends.value == [] then
      FailWith(w, NoFriends);
      (NoFriendsListed, w.Say(NoFriends).Exit(1))
    else
      var w1 := w.ScanToken().1;
      var choice := Select(friends.value, w.ScanToken().0);
      Same(w, w1);
      if choice.Err? then
        FailWith(w1, SelectionFailed);
        SinceChain(w, w1, w1.Say(SelectionFailed).Exit(1));
        (NotSelected, w1.Say(SelectionFailed).Exit(1))
      else
        var res := Post(w1, choice.value.GetUserID(), message);
        SinceChain(w, w1, res.1);
        res
  }

  /** sendMessage and the report; any status but 200 exits with status 1. */
  function Post(w: World, recipient: string, message: string): (res: (Sent, World))
    ensures Grows(w, res.1)
    ensures res.0 == Posted || res.0 == SendRejected
  {
    var (reply, w1) := w.Call(SendMessage(recipient, message));
    Called(w, SendMessage(recipient, message));
    if !SendAccepted(reply) then
      FailWith(w1, SendFailed);
      SinceChain(w, w1, w1.Say(SendFailed).Exit(1));
      (SendRejected, w1.Say(SendFailed).Exit(1))
    else
      GoOnWith(w1, MessageSent);
      SinceChain(w, w1, w1.Say(MessageSent));
      (Posted, w1.Say(MessageSent))
  }

  /** The stable copy, given the entries of friends.json (None: the file did not load). */
  function SendStable(w: World, args: seq<string>, entries: Option<seq<FriendEntry>>): (res: (Sent, World))
    ensures Grows(w, res.1)
  {
    if |args| < 2 then
      FailWith(w, Usage);
      (UsageShown, w.Say(Usage).Exit(1))
    else if entries.None? then
      FailWith(w, ListingFailed);
      (FriendsUnavailable, w.Say(ListingFailed).Exit(1))
    else if entries.value == [] then
      FailWith(w, NoFriends);
      (NoFriendsListed, w.Say(NoFriends).Exit(1))
    else
      var w1 := w.ScanToken().1;
      var choice := Select(entries.value, w.ScanToken().0);
      Same(w, w1);
      if choice.Err? then
        FailWith(w1, SelectionFailed);
        SinceChain(w, w1, w1.Say(SelectionFailed).Exit(1));
        (NotSelected, w1.Say(SelectionFailed).Exit(1))
      else
        var res := Post(w1, choice.value.userId, args[1]);
        SinceChain(w, w1, res.1);
        res
  }

  /** The user id the message goes to, when a friend is picked at all. */
  function Recipient(w: World, friends: Option<seq<Friend>>): (r: Option<string>)
    ensures r.Some? <==> friends.Some? && friends.value != [] && Select(friends.value, w.ScanToken().0).Ok?
    ensures r.Some? ==> r.value == Select(friends.value, w.ScanToken().0).value.GetUserID()
  {
    if friends.None? || friends.value == [] then None
    else
      match Select(friends.value, w.ScanToken().0)
      case Ok(f) => Some(f.GetUserID())
      case Err(_) => None
  }

  /** Posting calls once and ends, on failure, with exit status 1. */
  lemma PostFinished(w: World, recipient: string, message: string)
    ensures Finished(w, Post(w, recipient, message).1, Post(w, recipient, message).0 == Posted,
      [SendMessage(recipient, message)])
    ensures Post(w, recipient, message).0 == Posted <==> SendAccepted(NextReply(w))
  {
    var (reply, w1) := w.Call(SendMessage(recipient, message));
    Called(w, SendMessage(recipient, message));
    if !SendAccepted(reply) {
      var r := w1.Say(SendFailed).Exit(1);
      assert Post(w, recipient, message) == (SendRejected, r);
      FailWith(w1, SendFailed);
      FinishedAfter(w, w1, r, false, [SendMessage(recipient, message)], []);
    } else {
      var r := w1.Say(MessageSent);
      assert Post(w, recipient, message) == (Posted, r);
      GoOnWith(w1, MessageSent);
      FinishedAfter(w, w1, r, true, [SendMessage(recipient, message)], []);
    }
    assert [SendMessage(recipient, message)] + [] == [SendMessage(recipient, message)];
  }

  /** With friends listed: the choice, then the post when the choice is valid. */
  lemma ChooseThenPost(w: World, message: string, friends: Option<seq<Friend>>)
    requires friends.Some? && friends.value != []
    ensures Finished(w, SendTo(w, message, friends).1, SendTo(w, message, friends).0 == Posted,
      if Recipient(w, friends).Some? then [SendMessage(Recipient(w, friends).value, message)] else [])
    ensures SendTo(w, message, friends).0 == Posted <==> Recipient(w, friends).Some? && SendAccepted(NextReply(w))
  {
    if Select(friends.value, w.ScanToken().0).Err? {
      NotChosen(w, message, friends);
    } else {
      Chosen(w, message, friends);
    }
  }

  /** A choice that is not a listed number reports itself and exits, without a call. */
  lemma NotChosen(w: World, message: string, friends: Option<seq<Friend>>)
    requires friends.Some? && friends.value != [] && Select(friends.value, w.ScanToken().0).Err?
    ensures Recipient(w, friends) == None && SendTo(w, message, friends).0 == NotSelected
    ensures Finished(w, SendTo(w, message, friends).1, false, [])
  {
    var w1 := w.ScanToken().1;
    var r := w1.Say(SelectionFailed).Exit(1);
    Same(w, w1);
    assert SendTo(w, message, friends) == (NotSelected, r);
    FailWith(w1, SelectionFailed);
    FinishedAfter(w, w1, r, false, [], []);
  }

  /** A valid choice goes on with the one post to the chosen friend. */
  lemma Chosen(w: World, message: string, friends: Option<seq<Friend>>)
    requires friends.Some? && friends.value != [] && Select(friends.value, w.ScanToken().0).Ok?
    ensures var id := Select(friends.value, w.ScanToken().0).value.GetUserID();
      Recipient(w, friends) == Some(id) &&
      Finished(w, SendTo(w, message, friends).1, SendTo(w, message, friends).0 == Posted, [SendMessage(id, message)])
    ensures SendTo(w, message, friends).0 == Posted <==> SendAccepted(NextReply(w))
  {
    var w1 := w.ScanToken().1;
    var id := Select(friends.value, w.ScanToken().0).value.GetUserID();
    var res := Post(w1, id, message);
    Same(w, w1);
    assert SendTo(w, message, friends) == res;
    assert NextReply(w1) == NextReply(w);
    PostFinished(w1, id, message);
    FinishedAfter(w, w1, res.1, res.0 == Posted, [], [SendMessage(id, message)]);
    assert [] + [SendMessage(id, message)] == [SendMessage(id, message)];
  }

  /** The one call, when there is one, sends the message to the picked friend. */
  lemma SendToFinished(w: World, message: string, friends: Option<seq<Friend>>)
    ensures Finished(w, SendTo(w, message, friends).1, SendTo(w, message, friends).0 == Posted,
      if Recipient(w, friends).Some? then [SendMessage(Recipient(w, friends).value, message)] else [])
    ensures SendTo(w, message, friends).0 == Posted <==> Recipient(w, friends).Some? && SendAccepted(NextReply(w))
  {
    if friends.None? {
      assert SendTo(w, message, friends) == (FriendsUnavailable, w.Say(ListingFailed).Exit(1));
      FailWith(w, ListingFailed);
    } else if friends.value == [] {
      assert SendTo(w, message, friends) == (NoFriendsListed, w.Say(NoFriends).Exit(1));
      FailWith(w, NoFriends);
    } else {
      ChooseThenPost(w, message, friends);
    }
  }

  /** Without a message argument the command shows its usage and exits with status 1, reading and calling nothing. */
  lemma SendNeedsMessage(w: World, args: seq<string>, friends: Option<seq<Friend>>)
    requires |args| < 3
    ensures SendCurrent(w, args, friends).0 == UsageShown
    ensures SendCurrent(w, args, friends).1.stdin == w.stdin
    ensures Since(w, SendCurrent(w, args, friends).1) == [Say(Usage), Exit(1)]
  {
    FailWith(w, Usage);
  }

  /**
   * The message is os.Args[2] and goes, in the one call the command makes,
   * to the user id of the friend whose number was typed. The command
   * succeeds exactly when that call is answered with status 200, whether or
   * not the body decodes, and otherwise ends with exit status 1, its only exit.
   */
  lemma SendGoesToThePickedFriend(w: World, args: seq<string>, friends: Option<seq<Friend>>)
    requires |args| >= 3
    ensures Finished(w, SendCurrent(w, args, friends).1, SendCurrent(w, args, friends).0 == Posted,
      if Recipient(w, friends).Some? then [SendMessage(Recipient(w, friends).value, args[2])] else [])
    ensures SendCurrent(w, args, friends).0 == Posted <==>
      Recipient(w, friends).Some? && NextReply(w).Response? && NextReply(w).status == 200
  {
    assert SendCurrent(w, args, friends) == SendTo(w, args[2], friends);
    SendToFinished(w, args[2], friends);
  }

  /**
   * The stable copy behaves as the current client would on the same
   * entries with the message one argument further on: the same output, the
   * same calls and the same outcome. In particular it sends to the typed
   * entry's user_id.
   */
  lemma StableMatchesCurrent(w: World, args: seq<string>, entries: Option<seq<FriendEntry>>, command: string)
    requires |args| >= 1
    ensures SendStable(w, args, entries) == SendCurrent(w, [args[0], command] + args[1..], ReceiveEntry.LegacyFriends(entries))
  {
    var shifted := [args[0], command] + args[1..];
    assert |shifted| == |args| + 1;
    if |args| >= 2 {
      assert shifted[2] == args[1];
      assert SendCurrent(w, shifted, ReceiveEntry.LegacyFriends(entries)) == SendTo(w, args[1], ReceiveEntry.LegacyFriends(entries));
      if entries.Some? && entries.value != [] {
        var es := entries.value;
        var fs := ReceiveEntry.Legacy(es);
        var token := w.ScanToken().0;
        if Select(es, token).Ok? {
          var n := Atoi(token).value;
          assert fs[n - 1].GetUserID() == es[n - 1].userId;
        }
      }
    }
  }

  /** The current client's send command over the console. */
  method RunSend(con: Console, args: seq<string>, friends: Option<seq<Friend>>) returns (s: Sent)
    modifies con
    ensures (s, con.State()) == SendCurrent(old(con.State()), args, friends)
  {
    if |args| < 3 {
      con.Say(Usage);
      con.Exit(1);
      return UsageShown;
    }
    s := RunSendTo(con, args[2], friends);
  }

  method RunSendTo(con: Console, message: string, friends: Option<seq<Friend>>) returns (s: Sent)
    modifies con
    ensures (s, con.State()) == SendTo(old(con.State()), message, friends)
  {
    if friends.None? {
      con.Say(ListingFailed);
      con.Exit(1);
      return FriendsUnavailable;
    }
    if friends.value == [] {
      con.Say(NoFriends);
      con.Exit(1);
      return NoFriendsListed;
    }
    var choice := ReadChoice(con, friends.value);
    if choice.Err? {
      con.Say(SelectionFailed);
      con.Exit(1);
      return NotSelected;
    }
    s := RunPost(con, choice.value.GetUserID(), message);
  }

  /** sendMessage over the console. */
  method RunPost(con: Console, recipient: string, message: string) returns (s: Sent)
    modifies con
    ensures (s, con.State()) == Post(old(con.State()), recipient, message)
  {
    var reply := con.Call(SendMessage(recipient, message));
    if !SendAccepted(reply) {
      con.Say(SendFailed);
      con.Exit(1);
      return SendRejected;
    }
    con.Say(MessageSent);
    s := Posted;
  }

  /** The stable copy over the console. */
  method RunSendStable(con: Console, args: seq<string>, entries: Option<seq<FriendEntry>>) returns (s: Sent)
    modifies con
    ensures (s, con.State()) == SendStable(old(con.State()), args, entries)
  {
    if |args| < 2 {
      con.Say(Usage);
      con.Exit(1);
      return UsageShown;
    }
    if entries.None? {
      con.Say(ListingFailed);
      con.Exit(1);
      return FriendsUnavailable;
    }
    if entries.value == [] {
      con.Say(NoFriends);
      con.Exit(1);
      return NoFriendsListed;
    }
    var choice := ReadChoice(con, entries.value);
    if choice.Err? {
      con.Say(SelectionFailed);
      con.Exit(1);
      return NotSelected;
    }
    s := RunPost(con, choice.value.userId, args[1]);
  }
}
