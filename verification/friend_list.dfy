/**
 * Adding a friend to friends.json, in the current client and in the alpha
 * copy: the username comes from the command line or a prompt, the user is
 * looked up on the backend, and addFriend appends the found user to the
 * stored list unless an entry with the same user id is already there.
 */
module FriendList {
  import opened Wrappers
  import opened Types
  import opened Console

  // ---------------------------------------------------------------------
  // The stored list

  /** Some entry of `fs` has user id `id`. */
  predicate HasId(fs: seq<FriendEntry>, id: string) {
    exists i :: 0 <= i < |fs| && fs[i].userId == id
  }

  /** No user id appears twice. */
  predicate UniqueIds(fs: seq<FriendEntry>) {
    forall i, j :: 0 <= i < j < |fs| ==> fs[i].userId != fs[j].userId
  }

  /**
   * The list addFriend starts from: the decoded file, or the empty list
   * when the file is missing or does not decode (None).
   */
  function Loaded(stored: Option<seq<FriendEntry>>): (fs: seq<FriendEntry>)
    ensures stored.None? ==> fs == []
  {
    if stored.Some? then stored.value else []
  }

  datatype AddError = AlreadyListed

  /** addFriend's decision: refuse a user id already listed, otherwise append the entry at the end. */
  function Added(fs: seq<FriendEntry>, e: FriendEntry): (r: Result<seq<FriendEntry>, AddError>)
    ensures r.Err? <==> exists i :: 0 <= i < |fs| && fs[i].userId == e.userId
    ensures r.Ok? ==> |r.value| == |fs| + 1 && r.value[..|fs|] == fs && r.value[|fs|] == e
  {
    if HasId(fs, e.userId) then Err(AlreadyListed) else Ok(fs + [e])
  }

  /** Appending keeps user ids unique, and the new id is then listed. */
  lemma AddedKeepsIdsUnique(fs: seq<FriendEntry>, e: FriendEntry)
    requires UniqueIds(fs) && Added(fs, e).Ok?
    ensures UniqueIds(Added(fs, e).value) && HasId(Added(fs, e).value, e.userId)
  {
    var r := Added(fs, e).value;
    assert r[|fs|].userId == e.userId;
    forall i, j | 0 <= i < j < |r|
      ensures r[i].userId != r[j].userId
    {
      if j == |fs| {
        assert r[i] == fs[i];
      } else {
        assert r[i] == fs[i] && r[j] == fs[j];
      }
    }
  }

  /**
   * Only the user id decides: an entry with another username or date is
   * treated alike, so a username already listed under another id is added.
   */
  lemma AddedChecksIdOnly(fs: seq<FriendEntry>, e: FriendEntry, username: string, addedAt: string)
    ensures Added(fs, e).Ok? <==> Added(fs, FriendEntry(e.userId, username, addedAt)).Ok?
  {
  }

  /** Adding the same user id a second time is refused, whatever the other fields. */
  lemma AddedTwiceFails(fs: seq<FriendEntry>, e: FriendEntry, again: FriendEntry)
    requires Added(fs, e).Ok? && again.userId == e.userId
    ensures Added(Added(fs, e).value, again).Err?
  {
    assert Added(fs, e).value[|fs|].userId == again.userId;
  }

  /** The duplicate check of addFriend: a scan of the list for the user id. */
  method KnownId(fs: seq<FriendEntry>, id: string) returns (found: bool)
    ensures found <==> HasId(fs, id)
  {
    var i := 0;
    while i < |fs|
      invariant 0 <= i <= |fs|
      invariant forall k :: 0 <= k < i ==> fs[k].userId != id
    {
      if fs[i].userId == id {
        return true;
      }
      i := i + 1;
    }
    return false;
  }

  /** friends.json: None while the file is missing or does not decode. */
  class FriendsFile {
    var stored: Option<seq<FriendEntry>>

    constructor (stored: Option<seq<FriendEntry>>)
      ensures this.stored == stored
    {
      this.stored := stored;
    }

    /**
     * addFriend: load the list, refuse a listed user id without writing,
     * otherwise append the entry and write the list back.
     */
    method AddFriend(userId: string, username: string, addedAt: string) returns (r: Result<(), AddError>)
      modifies this
      ensures r.Err? <==> Added(Loaded(old(stored)), FriendEntry(userId, username, addedAt)).Err?
      ensures r.Err? ==> stored == old(stored)
      ensures r.Ok? ==> stored == Some(Added(Loaded(old(stored)), FriendEntry(userId, username, addedAt)).value)
    {
      var friends := Loaded(stored);
      var known := KnownId(friends, userId);
      if known {
        return Err(AlreadyListed);
      }
      friends := friends + [FriendEntry(userId, username, addedAt)];
      stored := Some(friends);
      r := Ok(());
    }
  }

  // ---------------------------------------------------------------------
  // The command

  /** The current client takes the username from os.Args[1] when there is one. */
  function CurrentUsernameArg(args: seq<string>): (a: Option<string>)
    ensures a.Some? <==> |args| > 1
    ensures a.Some? ==> a.value == args[1]
  {
    if |args| > 1 then Some(args[1]) else None
  }

  /** The alpha client takes os.Args[2] when it is there and not empty. */
  function AlphaUsernameArg(args: seq<string>): (a: Option<string>)
    ensures a.Some? <==> |args| > 2 && args[2] != ""
    ensures a.Some? ==> a.value == args[2]
  {
    if |args| > 2 && args[2] != "" then Some(args[2]) else None
  }

  /** searchUser succeeds on status 200 with a decodable body. */
  predicate SearchSucceeded(r: Reply) {
    r.Response? && r.status == 200 && r.body.Some?
  }

  datatype Befriended = EmptyName | NotFound | Duplicate | Saved

  /** The entry addFriend appends for a found user. */
  function EntryFor(user: Payload, addedAt: string): FriendEntry {
    FriendEntry(user.userId, user.username, addedAt)
  }

  /**
   * The add-friend command, given the argument picked from the command line
   * (None: prompt), the friends file as stored, and the time stamp of the
   * new entry. Returns the outcome, the world and the file afterwards.
   */
  function AddCommand(w: World, arg: Option<string>, stored: Option<seq<FriendEntry>>, addedAt: string)
    : (res: (Befriended, World, Option<seq<FriendEntry>>))
    ensures Grows(w, res.1)
    ensures res.0 != Saved ==> res.2 == stored
  {
    var w1 := if arg.Some? then w else w.ScanToken().1;
    assert w1.trace == w.trace;
    if Username(w, arg) == "" then
      Did2(w, w1.Say(EmptyUsername), w1.Say(EmptyUsername).Exit(1), Say(EmptyUsername), Exit(1));
      (EmptyName, w1.Say(EmptyUsername).Exit(1), stored)
    else
      Same(w, w1);
      var res := Lookup(w1, Username(w, arg), stored, addedAt);
      SinceChain(w, w1, res.1);
      res
  }

  /** searchUser, then addFriend with the found user; a failed search reports and exits with status 1. */
  function Lookup(w: World, username: string, stored: Option<seq<FriendEntry>>, addedAt: string)
    : (res: (Befriended, World, Option<seq<FriendEntry>>))
    ensures Grows(w, res.1)
    ensures res.0 != Saved ==> res.2 == stored
    ensures res.0 != EmptyName
  {
    var (reply, w1) := w.Call(SearchUser(username));
    if !SearchSucceeded(reply) then
      Bracket(w, w, w, w1.Say(SearchFailed).Exit(1), [], [Call(SearchUser(username)), Say(SearchFailed), Exit(1)]);
      (NotFound, w1.Say(SearchFailed).Exit(1), stored)
    else
      var w2 := w1.Say(UserFound(reply.body.value.username));
      var res := Store(w2, reply.body.value, stored, addedAt);
      Did2(w, w1, w2, Call(SearchUser(username)), Say(UserFound(reply.body.value.username)));
      SinceChain(w, w2, res.1);
      res
  }

  /** addFriend on the stored file, then the report; a listed user id exits with status 1. */
  function Store(w: World, user: Payload, stored: Option<seq<FriendEntry>>, addedAt: string)
    : (res: (Befriended, World, Option<seq<FriendEntry>>))
    ensures Grows(w, res.1)
    ensures res.0 == Saved || res.0 == Duplicate
    ensures res.0 == Saved <==> !HasId(Loaded(stored), user.userId)
    ensures res.0 == Saved ==> res.2 == Some(Loaded(stored) + [EntryFor(user, addedAt)])
    ensures res.0 != Saved ==> res.2 == stored
  {
    var added := Added(Loaded(stored), EntryFor(user, addedAt));
    if added.Err? then
      Did2(w, w.Say(AlreadyFriend), w.Say(AlreadyFriend).Exit(1), Say(AlreadyFriend), Exit(1));
      (Duplicate, w.Say(AlreadyFriend).Exit(1), stored)
    else
      Did(w, w.Say(FriendAdded), Say(FriendAdded));
      (Saved, w.Say(FriendAdded), Some(added.value))
  }

  /** The username the command works with. */
  function Username(w: World, arg: Option<string>): string {
    if arg.Some? then arg.value else w.ScanToken().0
  }

  /** Storing calls nothing; a refusal ends with exit status 1. */
  lemma StoreFinished(w: World, user: Payload, stored: Option<seq<FriendEntry>>, addedAt: string)
    ensures Finished(w, Store(w, user, stored, addedAt).1, Store(w, user, stored, addedAt).0 == Saved, [])
  {
    var added := Added(Loaded(stored), EntryFor(user, addedAt));
    if added.Err? {
      assert Store(w, user, stored, addedAt) == (Duplicate, w.Say(AlreadyFriend).Exit(1), stored);
      FailWith(w, AlreadyFriend);
    } else {
      assert Store(w, user, stored, addedAt) == (Saved, w.Say(FriendAdded), Some(added.value));
      GoOnWith(w, FriendAdded);
    }
  }

  /** A lookup makes exactly the one search call, and every failure ends with exit status 1. */
  lemma LookupFinished(w: World, username: string, stored: Option<seq<FriendEntry>>, addedAt: string)
    ensures Finished(w, Lookup(w, username, stored, addedAt).1, Lookup(w, username, stored, addedAt).0 == Saved,
      [SearchUser(username)])
  {
    var (reply, w1) := w.Call(SearchUser(username));
    Called(w, SearchUser(username));
    if !SearchSucceeded(reply) {
      var r := w1.Say(SearchFailed).Exit(1);
      assert Lookup(w, username, stored, addedAt) == (NotFound, r, stored);
      FailWith(w1, SearchFailed);
      FinishedAfter(w, w1, r, false, [SearchUser(username)], []);
      assert [SearchUser(username)] + [] == [SearchUser(username)];
    } else {
      var found := Say(UserFound(reply.body.value.username));
      var w2 := w1.Say(UserFound(reply.body.value.username));
      var res := Store(w2, reply.body.value, stored, addedAt);
      assert Lookup(w, username, stored, addedAt) == res;
      Did(w1, w2, found);
      Single(found);
      SinceChain(w, w1, w2);
      StoreFinished(w2, reply.body.value, stored, addedAt);
      FinishedAfter(w, w2, res.1, res.0 == Saved, [SearchUser(username)], []);
      assert [SearchUser(username)] + [] == [SearchUser(username)];
    }
  }

  /** A saved friend is the user the search found, appended to the loaded list. */
  lemma LookupSaves(w: World, username: string, stored: Option<seq<FriendEntry>>, addedAt: string)
    ensures Lookup(w, username, stored, addedAt).0 == Saved ==>
      SearchSucceeded(NextReply(w)) &&
      Lookup(w, username, stored, addedAt).2 == Some(Loaded(stored) + [EntryFor(NextReply(w).body.value, addedAt)])
  {
    var (reply, w1) := w.Call(SearchUser(username));
    assert reply == NextReply(w);
    if SearchSucceeded(reply) {
      var w2 := w1.Say(UserFound(reply.body.value.username));
      assert Lookup(w, username, stored, addedAt) == Store(w2, reply.body.value, stored, addedAt);
    }
  }

  /** The command calls the backend once when it has a username and never otherwise. */
  lemma CommandFinished(w: World, arg: Option<string>, stored: Option<seq<FriendEntry>>, addedAt: string)
    ensures Finished(w, AddCommand(w, arg, stored, addedAt).1, AddCommand(w, arg, stored, addedAt).0 == Saved,
      if Username(w, arg) == "" then [] else [SearchUser(Username(w, arg))])
  {
    var w1 := if arg.Some? then w else w.ScanToken().1;
    Same(w, w1);
    if Username(w, arg) == "" {
      var r := w1.Say(EmptyUsername).Exit(1);
      assert AddCommand(w, arg, stored, addedAt) == (EmptyName, r, stored);
      FailWith(w1, EmptyUsername);
      FinishedAfter(w, w1, r, false, [], []);
    } else {
      var u := Username(w, arg);
      var res := Lookup(w1, u, stored, addedAt);
      assert AddCommand(w, arg, stored, addedAt) == res;
      LookupFinished(w1, u, stored, addedAt);
      FinishedAfter(w, w1, res.1, res.0 == Saved, [], [SearchUser(u)]);
      assert [] + [SearchUser(u)] == [SearchUser(u)];
    }
  }

  /**
   * An empty username reports and exits with status 1 before any call,
   * leaving the file alone.
   */
  lemma EmptyUsernameStops(w: World, arg: Option<string>, stored: Option<seq<FriendEntry>>, addedAt: string)
    ensures AddCommand(w, arg, stored, addedAt).0 == EmptyName <==> Username(w, arg) == ""
    ensures AddCommand(w, arg, stored, addedAt).0 == EmptyName ==>
      Since(w, AddCommand(w, arg, stored, addedAt).1) == [Say(EmptyUsername), Exit(1)]
  {
    var w1 := if arg.Some? then w else w.ScanToken().1;
    if Username(w, arg) == "" {
      var r := w1.Say(EmptyUsername).Exit(1);
      assert AddCommand(w, arg, stored, addedAt) == (EmptyName, r, stored);
      Did2(w, w1.Say(EmptyUsername), r, Say(EmptyUsername), Exit(1));
    }
  }

  /** A username given on the command line is used without reading any input. */
  lemma ArgumentReadsNothing(w: World, arg: Option<string>, stored: Option<seq<FriendEntry>>, addedAt: string)
    requires arg.Some?
    ensures AddCommand(w, arg, stored, addedAt).1.stdin == w.stdin
  {
    if arg.value != "" {
      assert AddCommand(w, arg, stored, addedAt) == Lookup(w, arg.value, stored, addedAt);
      var (reply, w1) := w.Call(SearchUser(arg.value));
      if SearchSucceeded(reply) {
        var w2 := w1.Say(UserFound(reply.body.value.username));
        assert Lookup(w, arg.value, stored, addedAt) == Store(w2, reply.body.value, stored, addedAt);
      }
    }
  }

  /**
   * An empty os.Args[1] stops the current client without a prompt, while
   * the alpha client prompts when os.Args[2] is empty.
   */
  lemma EmptyArgumentHandling(w: World, args: seq<string>, stored: Option<seq<FriendEntry>>, addedAt: string)
    ensures |args| > 1 && args[1] == "" ==>
      AddCommand(w, CurrentUsernameArg(args), stored, addedAt).0 == EmptyName &&
      AddCommand(w, CurrentUsernameArg(args), stored, addedAt).1.stdin == w.stdin
    ensures |args| > 2 && args[2] == "" ==>
      (AddCommand(w, AlphaUsernameArg(args), stored, addedAt).0 == EmptyName <==> w.ScanToken().0 == "")
  {
    EmptyUsernameStops(w, CurrentUsernameArg(args), stored, addedAt);
    EmptyUsernameStops(w, AlphaUsernameArg(args), stored, addedAt);
  }

  /**
   * The name searched for is the command-line argument: os.Args[1] in the
   * current client whenever it is non-empty; os.Args[2] in the alpha client
   * when it is non-empty, and otherwise the name typed at the prompt.
   */
  lemma SearchesTheNamedUser(w: World, args: seq<string>, stored: Option<seq<FriendEntry>>, addedAt: string)
    ensures |args| > 1 && args[1] != "" ==>
      Calls(Since(w, AddCommand(w, CurrentUsernameArg(args), stored, addedAt).1)) == [SearchUser(args[1])]
    ensures |args| > 2 && args[2] != "" ==>
      Calls(Since(w, AddCommand(w, AlphaUsernameArg(args), stored, addedAt).1)) == [SearchUser(args[2])]
    ensures !(|args| > 2 && args[2] != "") ==>
      Calls(Since(w, AddCommand(w, AlphaUsernameArg(args), stored, addedAt).1)) ==
        if w.ScanToken().0 == "" then [] else [SearchUser(w.ScanToken().0)]
  {
    CommandFinished(w, CurrentUsernameArg(args), stored, addedAt);
    CommandFinished(w, AlphaUsernameArg(args), stored, addedAt);
  }

  /**
   * A saved friend is the user the search found, appended at the end of
   * the stored list (an empty one when the file did not load), after
   * exactly one search for the typed name and without an exit.
   */
  lemma SavedIsTheFoundUser(w: World, arg: Option<string>, stored: Option<seq<FriendEntry>>, addedAt: string)
    ensures AddCommand(w, arg, stored, addedAt).0 == Saved ==>
      SearchSucceeded(NextReply(w)) &&
      AddCommand(w, arg, stored, addedAt).2 == Some(Loaded(stored) + [EntryFor(NextReply(w).body.value, addedAt)]) &&
      Calls(Since(w, AddCommand(w, arg, stored, addedAt).1)) == [SearchUser(Username(w, arg))] &&
      Exits(Since(w, AddCommand(w, arg, stored, addedAt).1)) == []
  {
    CommandFinished(w, arg, stored, addedAt);
    var w1 := if arg.Some? then w else w.ScanToken().1;
    if Username(w, arg) != "" {
      assert AddCommand(w, arg, stored, addedAt) == Lookup(w1, Username(w, arg), stored, addedAt);
      assert NextReply(w1) == NextReply(w);
      LookupSaves(w1, Username(w, arg), stored, addedAt);
    }
  }

  /**
   * Every other outcome reports and exits with status 1 as the last thing
   * done, its only exit, with at most the one search call; the file is
   * left as it was.
   */
  lemma FailuresExit(w: World, arg: Option<string>, stored: Option<seq<FriendEntry>>, addedAt: string)
    ensures AddCommand(w, arg, stored, addedAt).0 != Saved ==>
      AddCommand(w, arg, stored, addedAt).2 == stored &&
      Exits(Since(w, AddCommand(w, arg, stored, addedAt).1)) == [1] &&
      |Calls(Since(w, AddCommand(w, arg, stored, addedAt).1))| <= 1 &&
      Since(w, AddCommand(w, arg, stored, addedAt).1)[|Since(w, AddCommand(w, arg, stored, addedAt).1)| - 1] == Exit(1)
  {
    CommandFinished(w, arg, stored, addedAt);
  }

  /** The command keeps friends.json free of repeated user ids. */
  lemma AddCommandKeepsIdsUnique(w: World, arg: Option<string>, stored: Option<seq<FriendEntry>>, addedAt: string)
    requires UniqueIds(Loaded(stored))
    ensures UniqueIds(Loaded(AddCommand(w, arg, stored, addedAt).2))
  {
    SavedIsTheFoundUser(w, arg, stored, addedAt);
    if AddCommand(w, arg, stored, addedAt).0 == Saved {
      AddedKeepsIdsUnique(Loaded(stored), EntryFor(NextReply(w).body.value, addedAt));
    }
  }

  /** The add-friend command over the console and the friends file. */
  method RunAddCommand(con: Console, file: FriendsFile, arg: Option<string>, addedAt: string) returns (b: Befriended)
    modifies con, file
    ensures (b, con.State(), file.stored) == AddCommand(old(con.State()), arg, old(file.stored), addedAt)
  {
    var username: string;
    if arg.Some? {
      username := arg.value;
    } else {
      username := con.ScanToken();
    }
    if username == "" {
      con.Say(EmptyUsername);
      con.Exit(1);
      return EmptyName;
    }
    var reply := con.Call(SearchUser(username));
    if !SearchSucceeded(reply) {
      con.Say(SearchFailed);
      con.Exit(1);
      return NotFound;
    }
    var user := reply.body.value;
    con.Say(UserFound(user.username));
    var added := file.AddFriend(user.userId, user.username, addedAt);
    if added.Err? {
      con.Say(AlreadyFriend);
      con.Exit(1);
      return Duplicate;
    }
    con.Say(FriendAdded);
    b := Saved;
  }
}
