/**
 * The friend-requests command of the beta client: the same two-entry menu
 * as the current client, after which the chosen list is fetched and
 * listed, with no wait for a key and nothing answered.
 */
module BetaFriendRequests {
  import opened Wrappers
  import opened Text
  import opened Console
  import opened FriendRequests

  /**
   * handleIncomingRequests and handleOutgoingRequests: fetch the chosen
   * list and list it; a failed fetch reports and exits with status 1.
   */
  function BetaHandle(w: World, incoming: bool): (res: (Managed, World))
    ensures Grows(w, res.1)
    ensures res.0 == Listed || res.0 == FetchError
  {
    var (reply, w1) := w.Call(FetchRequests(incoming));
    if !Fetched(reply) then
      Did2(w1, w1.Say(HandlerFailed), w1.Say(HandlerFailed).Exit(1), Say(HandlerFailed), Exit(1));
      Did(w, w1, Call(FetchRequests(incoming)));
      SinceChain(w, w1, w1.Say(HandlerFailed).Exit(1));
      (FetchError, w1.Say(HandlerFailed).Exit(1))
    else
      Did2(w, w1, w1.List(reply.body.value.requests), Call(FetchRequests(incoming)), List(reply.body.value.requests));
      (Listed, w1.List(reply.body.value.requests))
  }

  /**
   * manageFriendRequests of the beta client: a menu error exits with
   * status 1, otherwise the chosen list is handled. As in the current
   * client, the switch's default branch cannot be taken.
   */
  function BetaManage(w: World): (res: (Managed, World))
    ensures Grows(w, res.1)
  {
    var w1 := w.ScanToken().1;
    var choice := MenuChoice(w.ScanToken().0);
    assert w1.trace == w.trace;
    if choice.Err? then
      Did2(w1, w1.Say(MenuFailed), w1.Say(MenuFailed).Exit(1), Say(MenuFailed), Exit(1));
      (MenuError, w1.Say(MenuFailed).Exit(1))
    else
      BetaHandle(w1, choice.value == 1)
  }

  /**
   * A handler makes exactly one call, the fetch of the chosen list; it lists
   * the fetched requests when the reply is a decodable 200 and otherwise
   * reports and exits with status 1.
   */
  lemma BetaHandleEvents(w: World, incoming: bool)
    ensures BetaHandle(w, incoming).0 == Listed <==> Fetched(NextReply(w))
    ensures BetaHandle(w, incoming).0 == Listed ==>
      Since(w, BetaHandle(w, incoming).1) == [Call(FetchRequests(incoming)), List(NextReply(w).body.value.requests)]
    ensures BetaHandle(w, incoming).0 == FetchError ==>
      Since(w, BetaHandle(w, incoming).1) == [Call(FetchRequests(incoming)), Say(HandlerFailed), Exit(1)]
  {
    var (reply, w1) := w.Call(FetchRequests(incoming));
    assert reply == NextReply(w);
    if !Fetched(reply) {
      var r := w1.Say(HandlerFailed).Exit(1);
      assert BetaHandle(w, incoming) == (FetchError, r);
      assert r.trace == w.trace + [Call(FetchRequests(incoming)), Say(HandlerFailed), Exit(1)];
      assert r.trace[..|w.trace|] == w.trace;
    } else {
      var r := w1.List(reply.body.value.requests);
      assert BetaHandle(w, incoming) == (Listed, r);
      Did2(w, w1, r, Call(FetchRequests(incoming)), List(reply.body.value.requests));
    }
  }

  /** What a handler's events amount to: one fetch, and exit status 1 as the last event of a failure. */
  lemma BetaHandleCounts(w: World, incoming: bool)
    ensures Calls(Since(w, BetaHandle(w, incoming).1)) == [FetchRequests(incoming)]
    ensures Exits(Since(w, BetaHandle(w, incoming).1)) == if BetaHandle(w, incoming).0 == Listed then [] else [1]
    ensures BetaHandle(w, incoming).0 != Listed ==>
      Since(w, BetaHandle(w, incoming).1)[|Since(w, BetaHandle(w, incoming).1)| - 1] == Exit(1)
  {
    var (reply, w1) := w.Call(FetchRequests(incoming));
    Called(w, FetchRequests(incoming));
    if !Fetched(reply) {
      var r := w1.Say(HandlerFailed).Exit(1);
      assert BetaHandle(w, incoming) == (FetchError, r);
      FailWith(w1, HandlerFailed);
      FinishedAfter(w, w1, r, false, [FetchRequests(incoming)], []);
      assert [FetchRequests(incoming)] + [] == [FetchRequests(incoming)];
    } else {
      var r := w1.List(reply.body.value.requests);
      assert BetaHandle(w, incoming) == (Listed, r);
      Did(w1, r, List(reply.body.value.requests));
      Single(List(reply.body.value.requests));
      FinishedAfter(w, w1, r, true, [FetchRequests(incoming)], []);
      assert [FetchRequests(incoming)] + [] == [FetchRequests(incoming)];
    }
  }

  /** Anything but 1 or 2 at the menu reports and exits with status 1, calling nothing. */
  lemma BetaManageMenu(w: World)
    ensures BetaManage(w).0 == MenuError <==> Atoi(w.ScanToken().0) != Some(1) && Atoi(w.ScanToken().0) != Some(2)
    ensures BetaManage(w).0 == MenuError ==> Since(w, BetaManage(w).1) == [Say(MenuFailed), Exit(1)]
    ensures BetaManage(w).0 == MenuError ==> Exits(Since(w, BetaManage(w).1)) == [1]
  {
    var (token, w1) := w.ScanToken();
    if MenuChoice(token).Err? {
      var r := w1.Say(MenuFailed).Exit(1);
      assert BetaManage(w) == (MenuError, r);
      Did2(w, w1.Say(MenuFailed), r, Say(MenuFailed), Exit(1));
      Pair(Say(MenuFailed), Exit(1));
    }
  }

  /**
   * The menu decides the one call: typing 1 fetches the incoming list and
   * 2 the outgoing one. Every failure exits with status 1 as the last
   * thing done, and a listing exits nothing.
   */
  lemma BetaManageDispatch(w: World)
    ensures BetaManage(w).0 != MenuError ==>
      Calls(Since(w, BetaManage(w).1)) == [FetchRequests(Atoi(w.ScanToken().0) == Some(1))]
    ensures Exits(Since(w, BetaManage(w).1)) == if BetaManage(w).0 == Listed then [] else [1]
    ensures BetaManage(w).0 != Listed ==>
      Since(w, BetaManage(w).1)[|Since(w, BetaManage(w).1)| - 1] == Exit(1)
  {
    var (token, w1) := w.ScanToken();
    Same(w, w1);
    if MenuChoice(token).Err? {
      BetaManageMenu(w);
    } else {
      var incoming := MenuChoice(token).value == 1;
      assert BetaManage(w) == BetaHandle(w1, incoming);
      BetaHandleCounts(w1, incoming);
      SinceChain(w, w1, BetaHandle(w1, incoming).1);
    }
  }

  /**
   * For the outgoing list the beta command and the current one behave
   * identically: same calls, same output, same outcome.
   */
  lemma BetaAgreesOnOutgoing(w: World)
    requires Atoi(w.ScanToken().0) == Some(2)
    ensures BetaManage(w) == Manage(w)
  {
  }

  /** manageFriendRequests of the beta client over the console. */
  method BetaManageFriendRequests(con: Console) returns (m: Managed)
    modifies con
    ensures (m, con.State()) == BetaManage(old(con.State()))
  {
    var token := con.ScanToken();
    var choice := MenuChoice(token);
    if choice.Err? {
      con.Say(MenuFailed);
      con.Exit(1);
      return MenuError;
    }
    m := BetaHandleRequests(con, choice.value == 1);
  }

  /** The beta handlers over the console. */
  method BetaHandleRequests(con: Console, incoming: bool) returns (m: Managed)
    modifies con
    ensures (m, con.State()) == BetaHandle(old(con.State()), incoming)
  {
    var reply := con.Call(FetchRequests(incoming));
    if !Fetched(reply) {
      con.Say(HandlerFailed);
      con.Exit(1);
      return FetchError;
    }
    con.List(reply.body.value.requests);
    m := Listed;
  }
}
