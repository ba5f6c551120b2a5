/**
 * The entry of the receive command: the friends are listed (by the backend
 * in the current and alpha clients, from friends.json in the legacy one),
 * the list is checked, a friend
 * is picked by number, the conversation with that friend is fetched and
 * shown, and (in the current client) the key loop follows. Each failure
 * before the loop reports itself and exits with status 1. The legacy and
 * alpha copies stop after the first fetch.
 */
module ReceiveEntry {
  import opened Wrappers
  import opened Types
  import opened Console
  import opened Conversation
  import opened Selection
  import opened ReceiveMessage
  import opened Text

  /** The legacy friends.json entries read through the unified friend type. */
  function Legacy(es: seq<FriendEntry>): (fs: seq<Friend>)
    ensures |fs| == |es|
    ensures forall i :: 0 <= i < |es| ==> fs[i].GetUserID() == es[i].userId && fs[i].GetUsername() == es[i].username
  {
    if es == [] then [] else [FromLegacy(es[0])] + Legacy(es[1..])
  }

  /** The friends.json entries as friends, when the file could be read and decoded. */
  function LegacyFriends(entries: Option<seq<FriendEntry>>): (fs: Option<seq<Friend>>)
    ensures fs.Some? <==> entries.Some?
    ensures fs.Some? ==> fs.value == Legacy(entries.value)
  {
    if entries.None? then None else Some(Legacy(entries.value))
  }

  /**
   * Everything up to the key loop, given the friends listing (None: the
   * listing failed). A failed listing exits before anything is read;
   * otherwise the friend is picked from the list.
   */
  function View(w: World, me: string, friends: Option<seq<Friend>>): (res: (Option<Friend>, World))
    ensures Grows(w, res.1)
    ensures res.1.device == w.device
  {
    if friends.None? then FailWith(w, ListingFailed); (None, w.Say(ListingFailed).Exit(1))
    else Pick(w, me, friends.value)
  }

  /**
   * The friend is picked from a listing: an empty list exits before
   * anything is read, a bad choice exits, a failed fetch exits; otherwise
   * the picked friend is returned with its conversation shown.
   */
  function Pick(w: World, me: string, friends: seq<Friend>): (res: (Option<Friend>, World))
    ensures Grows(w, res.1)
    ensures res.1.device == w.device
  {
    if friends == [] then FailWith(w, NoFriends); (None, w.Say(NoFriends).Exit(1))
    else
      var (choice, w1) := Choose(w, friends);
      Same(w, w1);
      if choice.Err? then
        FailWith(w1, SelectionFailed);
        SinceChain(w, w1, w1.Say(SelectionFailed).Exit(1));
        (None, w1.Say(SelectionFailed).Exit(1))
      else
        var f := choice.value;
        var (ok, w2) := Fetch(w1, me, f.GetUserID(), f.GetUsername());
        SinceChain(w, w1, w2);
        if !ok then
          FailWith(w2, FetchFailed);
          SinceChain(w, w2, w2.Say(FetchFailed).Exit(1));
          (None, w2.Say(FetchFailed).Exit(1))
        else (Some(f), w2)
  }

  /** The current client: after the first fetch, the key loop with the picked friend. */
  function Receive(w: World, me: string, friends: Option<seq<Friend>>): (res: (Option<End>, World))
    ensures Grows(w, res.1)
  {
    var (picked, w1) := View(w, me, friends);
    if picked.None? then (None, w1)
    else
      var (end, w2) := Session(w1, me, picked.value.GetUserID(), picked.value.GetUsername());
      SinceChain(w, w1, w2);
      (Some(end), w2)
  }

  /** The legacy client over friends.json (None: the file could not be read or decoded). */
  function LegacyView(w: World, me: string, entries: Option<seq<FriendEntry>>): (res: (Option<Friend>, World))
    ensures Grows(w, res.1)
  {
    View(w, me, LegacyFriends(entries))
  }

  /**
   * Without a friends listing, or with an empty one, the command says so and
   * exits with status 1, reading nothing and calling nothing.
   */
  lemma ViewWithoutFriends(w: World, me: string, friends: Option<seq<Friend>>)
    ensures friends.None? ==> View(w, me, friends) == (None, w.Say(ListingFailed).Exit(1))
    ensures friends == Some([]) ==> View(w, me, friends) == (None, w.Say(NoFriends).Exit(1))
    ensures var res := View(w, me, friends);
      friends.None? || friends == Some([]) ==>
        res.0 == None && res.1.stdin == w.stdin && |Since(w, res.1)| == 2 && Since(w, res.1)[1] == Exit(1) &&
        Calls(Since(w, res.1)) == [] && Exits(Since(w, res.1)) == [1]
  {
    if friends.None? {
      Pair(Say(ListingFailed), Exit(1));
    } else if friends == Some([]) {
      Pair(Say(NoFriends), Exit(1));
    }
  }

  /** The legacy client exits with status 1 when friends.json cannot be read, before reading input or calling. */
  lemma LegacyWithoutFile(w: World, me: string)
    ensures LegacyView(w, me, None) == (None, w.Say(ListingFailed).Exit(1))
    ensures Since(w, LegacyView(w, me, None).1) == [Say(ListingFailed), Exit(1)]
  {
    ViewWithoutFriends(w, me, None);
  }

  /**
   * The command goes on exactly with the friend whose number was typed,
   * after one fetch of that friend's conversation and without exiting.
   */
  lemma ViewPicksTheChosenFriend(w: World, me: string, friends: Option<seq<Friend>>)
    ensures var res := View(w, me, friends);
      res.0.Some? ==>
        friends.Some? && friends.value != [] && Select(friends.value, w.ScanToken().0) == Ok(res.0.value) &&
        Quiet(Since(w, res.1)) && Exits(Since(w, res.1)) == [] &&
        Calls(Since(w, res.1)) == [Request.FetchConversation(res.0.value.GetUserID())]
  {
    if friends.Some? && friends.value != [] {
      assert View(w, me, friends) == Pick(w, me, friends.value);
      var (choice, w1) := Choose(w, friends.value);
      if choice.Ok? {
        var f := choice.value;
        var w2 := Fetch(w1, me, f.GetUserID(), f.GetUsername()).1;
        assert Since(w, w2) == Since(w1, w2);
        QuietCounts(Since(w, w2));
      }
    }
  }

  /** A report followed by exit status 1, after a quiet stretch with at most one call. */
  lemma ExitAfter(w: World, m: World, n: Notice)
    requires Grows(w, m) && Quiet(Since(w, m)) && |Calls(Since(w, m))| <= 1
    ensures var r := m.Say(n).Exit(1);
      var t := Since(w, r);
      Grows(w, r) && t != [] && t[|t| - 1] == Exit(1) && Exits(t) == [1] && |Calls(t)| <= 1 &&
      EnterCount(t) == 0 && Restores(t) == []
  {
    var r := m.Say(n).Exit(1);
    QuietCounts(Since(w, m));
    Pair(Say(n), Exit(1));
    Bracket(w, w, m, r, [], [Say(n), Exit(1)]);
  }

  /**
   * Otherwise the last thing the command does is exit with status 1, its
   * only exit, after at most one call, and the terminal is untouched.
   */
  lemma ViewExitsOtherwise(w: World, me: string, friends: Option<seq<Friend>>)
    ensures var res := View(w, me, friends);
      var t := Since(w, res.1);
      res.0.None? ==>
        t != [] && t[|t| - 1] == Exit(1) && Exits(t) == [1] && |Calls(t)| <= 1 &&
        EnterCount(t) == 0 && Restores(t) == []
  {
    if friends.None? {
      Same(w, w);
      ExitAfter(w, w, ListingFailed);
    } else if friends.value == [] {
      Same(w, w);
      ExitAfter(w, w, NoFriends);
    } else {
      assert View(w, me, friends) == Pick(w, me, friends.value);
      var (choice, w1) := Choose(w, friends.value);
      if choice.Err? {
        Same(w, w1);
        ExitAfter(w, w1, SelectionFailed);
      } else {
        var f := choice.value;
        var w2 := Fetch(w1, me, f.GetUserID(), f.GetUsername()).1;
        assert Since(w, w2) == Since(w1, w2);
        ExitAfter(w, w2, FetchFailed);
      }
    }
  }

  /**
   * Every call the current client makes goes to the friend it picked:
   * the first fetch, then the loop's fetches and sends.
   */
  lemma ReceiveTalksOnlyToThePickedFriend(w: World, me: string, friends: Option<seq<Friend>>)
    ensures var res := Receive(w, me, friends);
      res.0.Some? ==>
        friends.Some? && friends.value != [] && Select(friends.value, w.ScanToken().0).Ok? &&
        Calls(Since(w, res.1)) != [] &&
        Calls(Since(w, res.1))[0] == Request.FetchConversation(Select(friends.value, w.ScanToken().0).value.GetUserID()) &&
        AllToPeer(Calls(Since(w, res.1)), Select(friends.value, w.ScanToken().0).value.GetUserID())
  {
    var (picked, w1) := View(w, me, friends);
    ViewPicksTheChosenFriend(w, me, friends);
    if picked.Some? {
      var f := picked.value;
      var w2 := Session(w1, me, f.GetUserID(), f.GetUsername()).1;
      SessionCallsToPeer(w1, me, f.GetUserID(), f.GetUsername());
      SinceChain(w, w1, w2);
      var first := [Request.FetchConversation(f.GetUserID())];
      assert (first + Calls(Since(w1, w2)))[1..] == Calls(Since(w1, w2));
    }
  }

  /** The legacy client fetches with the typed entry's own user_id. */
  lemma LegacyFetchesTheEntry(w: World, me: string, entries: Option<seq<FriendEntry>>)
    ensures var res := LegacyView(w, me, entries);
      res.0.Some? ==>
        entries.Some? && Select(entries.value, w.ScanToken().0).Ok? &&
        Calls(Since(w, res.1)) == [Request.FetchConversation(Select(entries.value, w.ScanToken().0).value.userId)]
  {
    ViewPicksTheChosenFriend(w, me, LegacyFriends(entries));
    if entries.Some? {
      LegacySelect(entries.value, w.ScanToken().0);
    }
  }

  /** Selecting from the unified friends picks the friend of the same numbered entry. */
  lemma LegacySelect(es: seq<FriendEntry>, token: string)
    ensures Select(Legacy(es), token).Ok? <==> Select(es, token).Ok?
    ensures Select(es, token).Ok? ==> Select(Legacy(es), token).value.GetUserID() == Select(es, token).value.userId
  {
    if Select(es, token).Ok? {
      var n := Atoi(token).value;
      assert Legacy(es)[n - 1].GetUserID() == es[n - 1].userId;
    }
  }

  /** The entry of the receive command over the console. */
  method OpenConversation(con: Console, me: string, friends: Option<seq<Friend>>) returns (picked: Option<Friend>)
    modifies con
    ensures (picked, con.State()) == View(old(con.State()), me, friends)
  {
    if friends.None? {
      con.Say(ListingFailed);
      con.Exit(1);
      return None;
    }
    if friends.value == [] {
      con.Say(NoFriends);
      con.Exit(1);
      return None;
    }
    var choice := ReadChoice(con, friends.value);
    if choice.Err? {
      con.Say(SelectionFailed);
      con.Exit(1);
      return None;
    }
    var f := choice.value;
    var ok := RunFetch(con, me, f.GetUserID(), f.GetUsername());
    if !ok {
      con.Say(FetchFailed);
      con.Exit(1);
      return None;
    }
    picked := Some(f);
  }

  /** The whole receive command of the current client. */
  method RunReceive(con: Console, me: string, friends: Option<seq<Friend>>) returns (end: Option<End>)
    modifies con
    ensures (end, con.State()) == Receive(old(con.State()), me, friends)
  {
    var picked := OpenConversation(con, me, friends);
    if picked.None? {
      return None;
    }
    var e := WaitForKeys(con, me, picked.value.GetUserID(), picked.value.GetUsername());
    end := Some(e);
  }
}
