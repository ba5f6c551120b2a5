/**
 * The interactive user search of the current client: a loop that reads a
 * username, looks it up, and offers to send a friend request to the user
 * found, until "quit" or "exit" is typed.
 */
module UserSearch {
  import opened Wrappers
  import opened Text
  import opened Console
  import FriendList
  import Send

  /** The answers that send a friend request: exactly y, Y, yes, Yes and YES. */
  predicate IsYes(s: string) {
    s == "y" || s == "Y" || s == "yes" || s == "Yes" || s == "YES"
  }

  /** Every yes-word is "y" or "yes" in some letter case, but not every such spelling is a yes-word. */
  lemma YesWordsAreCaseSensitive(s: string)
    ensures IsYes(s) ==> Lower(s) == "y" || Lower(s) == "yes"
    ensures Lower("yES") == "yes" && !IsYes("yES")
  {
    assert Lower("yES") == "yes" by {
      assert Lower("yES")[0] == 'y' && Lower("yES")[1] == 'e' && Lower("yES")[2] == 's';
    }
    if s == "Y" {
      assert Lower(s)[0] == 'y';
    } else if s == "Yes" {
      assert Lower(s)[0] == 'y' && Lower(s)[1] == 'e' && Lower(s)[2] == 's';
    } else if s == "YES" {
      assert Lower(s)[0] == 'y' && Lower(s)[1] == 'e' && Lower(s)[2] == 's';
    } else if s == "y" {
      assert Lower(s)[0] == 'y';
    } else if s == "yes" {
      assert Lower(s)[0] == 'y' && Lower(s)[1] == 'e' && Lower(s)[2] == 's';
    }
  }

  /**
   * sendFriendRequest's verdict and report: status 200 or 201 with a
   * decodable body succeeds, and the report shows the request id only when
   * it is non-zero and the time stamp only when it is non-empty.
   */
  function RequestReport(r: Reply): (n: Option<Notice>)
    ensures n.Some? <==> r.Response? && (r.status == 200 || r.status == 201) && r.body.Some?
    ensures n.Some? ==> n.value.RequestSent?
    ensures n.Some? ==> (n.value.showsRequestId <==> r.body.value.requestId != 0)
    ensures n.Some? ==> (n.value.showsTimestamp <==> r.body.value.timestamp != "")
  {
    if r.Response? && (r.status == 200 || r.status == 201) && r.body.Some? then
      Some(RequestSent(r.body.value.requestId != 0, r.body.value.timestamp != ""))
    else None
  }

  /**
   * A 200 reply whose body does not decode fails here, though the same
   * reply counts as success for sendMessage; and 201 succeeds here only.
   */
  lemma UndecodableSuccessIsAnErrorHere()
    ensures RequestReport(Response(200, None)).None? && Send.SendAccepted(Response(200, None))
    ensures !Send.SendAccepted(Response(201, None))
  {
  }

  datatype Turn = Quit | Blank | Missed | Declined | Asked(sent: bool)

  /** One pass of the loop: read a line's first field and act on it. */
  function SearchTurn(w: World): (res: (Turn, World))
    ensures Grows(w, res.1)
    ensures |res.1.stdin| < |w.stdin| || (w.stdin == [] && res.1.stdin == [])
  {
    var w1 := w.ScanToken().1;
    var input := w.ScanToken().0;
    assert w1.trace == w.trace;
    if input == "quit" || input == "exit" then
      Did(w, w1.Say(Goodbye), Say(Goodbye));
      (Quit, w1.Say(Goodbye))
    else if input == "" then
      Did(w, w1.Say(EnterUsername), Say(EnterUsername));
      (Blank, w1.Say(EnterUsername))
    else
      var res := Found(w1, input);
      Same(w, w1);
      SinceChain(w, w1, res.1);
      res
  }

  /** searchUser for the typed name, then the offer of a friend request. */
  function Found(w: World, input: string): (res: (Turn, World))
    ensures Grows(w, res.1)
    ensures |res.1.stdin| <= |w.stdin|
    ensures res.0 != Quit && res.0 != Blank
  {
    var (reply, w1) := w.Call(SearchUser(input));
    Called(w, SearchUser(input));
    if !FriendList.SearchSucceeded(reply) then
      Did(w1, w1.Say(SearchFailed), Say(SearchFailed));
      SinceChain(w, w1, w1.Say(SearchFailed));
      (Missed, w1.Say(SearchFailed))
    else
      var name := reply.body.value.username;
      var w2 := w1.Say(UserFound(name));
      Did(w1, w2, Say(UserFound(name)));
      SinceChain(w, w1, w2);
      var res := Offer(w2, name);
      SinceChain(w, w2, res.1);
      res
  }

  /** The offer: a yes-word sends the request, anything else does not. */
  function Offer(w: World, name: string): (res: (Turn, World))
    ensures Grows(w, res.1)
    ensures |res.1.stdin| <= |w.stdin|
    ensures res.0 == Declined || res.0.Asked?
  {
    var w1 := w.ScanToken().1;
    assert w1.trace == w.trace;
    if !IsYes(w.ScanToken().0) then
      Did(w, w1.Say(NotSent), Say(NotSent));
      (Declined, w1.Say(NotSent))
    else
      var res := Ask(w1, name);
      Same(w, w1);
      SinceChain(w, w1, res.1);
      res
  }

  /** sendFriendRequest to the found user, and its report. */
  function Ask(w: World, name: string): (res: (Turn, World))
    ensures Grows(w, res.1)
    ensures res.1.stdin == w.stdin
    ensures res.0.Asked?
  {
    var (r, w1) := w.Call(SendFriendRequest(name));
    var n := if RequestReport(r).None? then RequestFailed else RequestReport(r).value;
    Did2(w, w1, w1.Say(n), Call(SendFriendRequest(name)), Say(n));
    (Asked(RequestReport(r).Some?), w1.Say(n))
  }

  /** A request is one call, and the report of it. */
  lemma AskEvents(w: World, name: string)
    ensures Quiet(Since(w, Ask(w, name).1))
    ensures Calls(Since(w, Ask(w, name).1)) == [SendFriendRequest(name)]
  {
    var (r, w1) := w.Call(SendFriendRequest(name));
    var n := if RequestReport(r).None? then RequestFailed else RequestReport(r).value;
    assert Ask(w, name).1 == w1.Say(n);
    Quietly2(w, w1, w1.Say(n), Call(SendFriendRequest(name)), Say(n));
  }

  /** The offer calls only after a yes-word, and then only the request. */
  lemma OfferEvents(w: World, name: string)
    ensures Quiet(Since(w, Offer(w, name).1))
    ensures Calls(Since(w, Offer(w, name).1)) == if IsYes(w.ScanToken().0) then [SendFriendRequest(name)] else []
  {
    var w1 := w.ScanToken().1;
    Same(w, w1);
    if !IsYes(w.ScanToken().0) {
      assert Offer(w, name) == (Declined, w1.Say(NotSent));
      Quietly(w, w1.Say(NotSent), Say(NotSent));
    } else {
      assert Offer(w, name) == Ask(w1, name);
      AskEvents(w1, name);
      QuietChain(w, w1, Ask(w1, name).1);
    }
  }

  /** The calls of one pass: none for quit or a blank line, the search, and the request only after a yes-word. */
  function TurnCalls(w: World): seq<Request> {
    var input := w.ScanToken().0;
    var w1 := w.ScanToken().1;
    if input == "quit" || input == "exit" || input == "" then []
    else if !FriendList.SearchSucceeded(NextReply(w1)) then [SearchUser(input)]
    else
      var name := NextReply(w1).body.value.username;
      var w2 := w1.Call(SearchUser(input)).1.Say(UserFound(name));
      if IsYes(w2.ScanToken().0) then [SearchUser(input), SendFriendRequest(name)] else [SearchUser(input)]
  }

  /**
   * Quit and a blank line call nothing; any other name is searched for
   * once, and a friend request goes to the found user only when the answer
   * is a yes-word. A pass never exits and never touches the terminal.
   */
  lemma TurnEvents(w: World)
    ensures Calls(Since(w, SearchTurn(w).1)) == TurnCalls(w)
    ensures Quiet(Since(w, SearchTurn(w).1))
  {
    var w1 := w.ScanToken().1;
    var input := w.ScanToken().0;
    Same(w, w1);
    if input == "quit" || input == "exit" {
      assert SearchTurn(w) == (Quit, w1.Say(Goodbye));
      Quietly(w1, w1.Say(Goodbye), Say(Goodbye));
      QuietChain(w, w1, w1.Say(Goodbye));
    } else if input == "" {
      assert SearchTurn(w) == (Blank, w1.Say(EnterUsername));
      Quietly(w1, w1.Say(EnterUsername), Say(EnterUsername));
      QuietChain(w, w1, w1.Say(EnterUsername));
    } else {
      assert SearchTurn(w) == Found(w1, input);
      FoundEvents(w1, input);
      QuietChain(w, w1, Found(w1, input).1);
    }
  }

  lemma FoundEvents(w: World, input: string)
    ensures Quiet(Since(w, Found(w, input).1))
    ensures Calls(Since(w, Found(w, input).1)) ==
      if !FriendList.SearchSucceeded(NextReply(w)) then [SearchUser(input)]
      else if IsYes(w.Call(SearchUser(input)).1.Say(UserFound(NextReply(w).body.value.username)).ScanToken().0)
      then [SearchUser(input), SendFriendRequest(NextReply(w).body.value.username)]
      else [SearchUser(input)]
  {
    var (reply, w1) := w.Call(SearchUser(input));
    assert reply == NextReply(w);
    Quietly(w, w1, Call(SearchUser(input)));
    if !FriendList.SearchSucceeded(reply) {
      assert Found(w, input) == (Missed, w1.Say(SearchFailed));
      Quietly(w1, w1.Say(SearchFailed), Say(SearchFailed));
      QuietChain(w, w1, w1.Say(SearchFailed));
    } else {
      var name := reply.body.value.username;
      var w2 := w1.Say(UserFound(name));
      assert Found(w, input) == Offer(w2, name);
      Quietly(w1, w2, Say(UserFound(name)));
      QuietChain(w, w1, w2);
      OfferEvents(w2, name);
      QuietChain(w, w2, Offer(w2, name).1);
    }
  }

  /** A friend request is sent only after a yes-word, and then to the user the search found. */
  lemma RequestOnlyAfterYes(w: World)
    ensures SearchTurn(w).0.Asked? ==>
      FriendList.SearchSucceeded(NextReply(w)) &&
      IsYes(w.ScanToken().1.Call(SearchUser(w.ScanToken().0)).1.Say(UserFound(NextReply(w).body.value.username)).ScanToken().0)
  {
    var w1 := w.ScanToken().1;
    var input := w.ScanToken().0;
    if input != "quit" && input != "exit" && input != "" {
      assert SearchTurn(w) == Found(w1, input);
      assert NextReply(w1) == NextReply(w);
    }
  }

  // ---------------------------------------------------------------------
  // The loop

  /**
   * The loop as written, followed for at most `turns` passes; true when it
   * ended. It ends only on quit or exit.
   */
  function SearchAsWritten(w: World, turns: nat): (res: (bool, World))
    ensures Grows(w, res.1)
    decreases turns
  {
    if turns == 0 then (false, w)
    else
      var (t, w1) := SearchTurn(w);
      if t == Quit then (true, w1)
      else
        var res := SearchAsWritten(w1, turns - 1);
        SinceChain(w, w1, res.1);
        res
  }

  /** `n` copies of the blank-line prompt. */
  function Prompts(n: nat): (t: seq<Event>)
    ensures |t| == n && forall i :: 0 <= i < n ==> t[i] == Say(EnterUsername)
  {
    if n == 0 then [] else [Say(EnterUsername)] + Prompts(n - 1)
  }

  /** At the end of input a pass reads an empty name and prompts again. */
  lemma BlankAtEndOfInput(w: World)
    requires w.stdin == []
    ensures SearchTurn(w) == (Blank, w.Say(EnterUsername))
  {
    assert w.ScanToken() == ("", w);
  }

  /**
   * At the end of input fmt.Scanln leaves the name empty, so the loop as
   * written asks again, and again: however many passes are followed it has
   * not ended, and it has done nothing but print the prompt.
   */
  lemma {:induction false} AsWrittenSpinsAtEndOfInput(w: World, turns: nat)
    requires w.stdin == []
    ensures SearchAsWritten(w, turns).0 == false
    ensures SearchAsWritten(w, turns).1 == w.(trace := w.trace + Prompts(turns))
    decreases turns
  {
    if turns > 0 {
      var w1 := w.Say(EnterUsername);
      BlankAtEndOfInput(w);
      assert SearchAsWritten(w, turns) == SearchAsWritten(w1, turns - 1);
      AsWrittenSpinsAtEndOfInput(w1, turns - 1);
      assert w1.trace + Prompts(turns - 1) == w.trace + Prompts(turns);
    }
  }

  /** The loop as intended: it ends on quit or exit, and also when the input runs out. */
  function Searching(w: World): (r: World)
    ensures Grows(w, r)
    decreases |w.stdin|
  {
    if w.stdin == [] then w
    else
      var (t, w1) := SearchTurn(w);
      if t == Quit then w1
      else
        var r := Searching(w1);
        SinceChain(w, w1, r);
        r
  }

  /** A pass quits exactly on the words quit and exit. */
  lemma QuitsOnQuitWords(w: World)
    ensures SearchTurn(w).0 == Quit <==> w.ScanToken().0 == "quit" || w.ScanToken().0 == "exit"
  {
    var w1 := w.ScanToken().1;
    var input := w.ScanToken().0;
    if input == "quit" || input == "exit" {
      assert SearchTurn(w).0 == Quit;
    } else if input == "" {
      assert SearchTurn(w) == (Blank, w1.Say(EnterUsername));
    } else {
      assert SearchTurn(w) == Found(w1, input);
    }
  }

  /** A pass that quits has said Goodbye last. */
  lemma QuitSaysGoodbye(w: World)
    requires w.ScanToken().0 == "quit" || w.ScanToken().0 == "exit"
    ensures Since(w, SearchTurn(w).1) == [Say(Goodbye)]
  {
    var w1 := w.ScanToken().1;
    assert SearchTurn(w) == (Quit, w1.Say(Goodbye));
    Did(w, w1.Say(Goodbye), Say(Goodbye));
  }

  /** The intended loop never exits the process or touches the terminal. */
  lemma {:induction false} SearchingIsQuiet(w: World)
    ensures Quiet(Since(w, Searching(w)))
    decreases |w.stdin|
  {
    if w.stdin == [] {
      Same(w, w);
    } else {
      var (t, w1) := SearchTurn(w);
      TurnEvents(w);
      if t != Quit {
        assert Searching(w) == Searching(w1);
        SearchingIsQuiet(w1);
        QuietChain(w, w1, Searching(w1));
      }
    }
  }

  /** One unfolding of the intended loop on input that has not run out. */
  lemma SearchingStep(w: World)
    requires w.stdin != []
    ensures Searching(w) == if SearchTurn(w).0 == Quit then SearchTurn(w).1 else Searching(SearchTurn(w).1)
  {
  }

  /**
   * The intended loop ends having read all the input or with Goodbye as the
   * last thing printed.
   */
  lemma {:induction false} SearchingStops(w: World)
    ensures Searching(w).stdin != [] ==>
      Since(w, Searching(w)) != [] && Since(w, Searching(w))[|Since(w, Searching(w))| - 1] == Say(Goodbye)
    decreases |w.stdin|
  {
    if w.stdin != [] {
      var w1 := SearchTurn(w).1;
      var r := Searching(w);
      SearchingStep(w);
      if SearchTurn(w).0 == Quit {
        assert r == w1;
        QuitsOnQuitWords(w);
        QuitSaysGoodbye(w);
      } else {
        assert r == Searching(w1);
        SearchingStops(w1);
        if r.stdin != [] {
          LastOfChain(w, w1, r);
          assert Since(w1, r)[|Since(w1, r)| - 1] == Say(Goodbye);
        }
      }
    }
  }

  /** The intended loop over the console. */
  method SearchUsers(con: Console)
    modifies con
    ensures con.State() == Searching(old(con.State()))
  {
    while con.stdin != []
      invariant Searching(con.State()) == Searching(old(con.State()))
      decreases |con.stdin|
    {
      var turn := RunTurn(con);
      if turn == Quit {
        return;
      }
    }
  }

  /** One pass over the console. */
  method RunTurn(con: Console) returns (t: Turn)
    modifies con
    ensures (t, con.State()) == SearchTurn(old(con.State()))
  {
    var input := con.ScanToken();
    if input == "quit" || input == "exit" {
      con.Say(Goodbye);
      return Quit;
    }
    if input == "" {
      con.Say(EnterUsername);
      return Blank;
    }
    t := RunFound(con, input);
  }

  method RunFound(con: Console, input: string) returns (t: Turn)
    modifies con
    ensures (t, con.State()) == Found(old(con.State()), input)
  {
    var reply := con.Call(SearchUser(input));
    if !FriendList.SearchSucceeded(reply) {
      con.Say(SearchFailed);
      return Missed;
    }
    var name := reply.body.value.username;
    con.Say(UserFound(name));
    t := RunOffer(con, name);
  }

  method RunOffer(con: Console, name: string) returns (t: Turn)
    modifies con
    ensures (t, con.State()) == Offer(old(con.State()), name)
  {
    var answer := con.ScanToken();
    if !IsYes(answer) {
      con.Say(NotSent);
      return Declined;
    }
    var r := con.Call(SendFriendRequest(name));
    var n := RequestReport(r);
    if n.None? {
      con.Say(RequestFailed);
    } else {
      con.Say(n.value);
    }
    t := Asked(n.Some?);
  }
}
