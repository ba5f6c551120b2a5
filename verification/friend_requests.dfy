/**
 * The friend-requests command of the current client: a two-entry menu,
 * the fetched list of incoming or outgoing requests, and for incoming
 * requests a raw-mode wait for Ctrl+R, after which the user answers one
 * pending or rejected request with accept or reject.
 */
module FriendRequests {
  import opened Wrappers
  import opened Terminal
  import opened Types
  import opened Text
  import opened Console
  import opened Selection
  import ReceiveMessage

  // ---------------------------------------------------------------------
  // Which requests can be answered

  /** A request can be answered while its status, in any letter case, is pending or rejected. */
  predicate Respondable(r: FriendRequest) {
    Lower(r.status) == "pending" || Lower(r.status) == "rejected"
  }

  /** The answerable requests, in their original order. */
  function RespondableOf(rs: seq<FriendRequest>): (kept: seq<FriendRequest>)
    ensures |kept| <= |rs|
  {
    if rs == [] then []
    else (if Respondable(rs[0]) then [rs[0]] else []) + RespondableOf(rs[1..])
  }

  /** Exactly the answerable requests are kept. */
  lemma {:induction false} RespondableExactly(rs: seq<FriendRequest>)
    ensures forall r :: r in RespondableOf(rs) <==> r in rs && Respondable(r)
  {
    if rs != [] {
      RespondableExactly(rs[1..]);
      assert rs == [rs[0]] + rs[1..];
    }
  }

  lemma {:induction false} RespondableAppend(a: seq<FriendRequest>, b: seq<FriendRequest>)
    ensures RespondableOf(a + b) == RespondableOf(a) + RespondableOf(b)
  {
    if a == [] {
      assert a + b == b;
    } else {
      var head := if Respondable(a[0]) then [a[0]] else [];
      assert (a + b)[0] == a[0] && (a + b)[1..] == a[1..] + b;
      assert RespondableOf(a + b) == head + RespondableOf(a[1..] + b);
      RespondableAppend(a[1..], b);
      assert head + (RespondableOf(a[1..]) + RespondableOf(b)) == (head + RespondableOf(a[1..])) + RespondableOf(b);
    }
  }

  /** Filtering twice keeps what filtering once kept. */
  lemma {:induction false} RespondableIdempotent(rs: seq<FriendRequest>)
    ensures RespondableOf(RespondableOf(rs)) == RespondableOf(rs)
  {
    if rs != [] {
      RespondableIdempotent(rs[1..]);
      if Respondable(rs[0]) {
        var kept := RespondableOf(rs);
        assert kept == [rs[0]] + RespondableOf(rs[1..]);
        assert kept[0] == rs[0] && kept[1..] == RespondableOf(rs[1..]);
        assert RespondableOf(kept) == [rs[0]] + RespondableOf(kept[1..]);
      } else {
        assert RespondableOf(rs) == [] + RespondableOf(rs[1..]) == RespondableOf(rs[1..]);
      }
    }
  }

  /** An accepted request is never offered, however its status is capitalised. */
  lemma AcceptedNeverOffered(rs: seq<FriendRequest>, r: FriendRequest)
    requires Lower(r.status) == "accepted"
    ensures r !in RespondableOf(rs)
  {
    RespondableExactly(rs);
    assert "accepted"[0] != "pending"[0] && "accepted"[0] != "rejected"[0];
  }

  /** The filter as a loop that appends, as handleFriendRequestResponse does. */
  method CollectRespondable(rs: seq<FriendRequest>) returns (kept: seq<FriendRequest>)
    ensures kept == RespondableOf(rs)
  {
    kept := [];
    var i := 0;
    while i < |rs|
      invariant 0 <= i <= |rs|
      invariant kept == RespondableOf(rs[..i])
    {
      RespondableAppend(rs[..i], [rs[i]]);
      assert rs[..i + 1] == rs[..i] + [rs[i]];
      if Respondable(rs[i]) {
        kept := kept + [rs[i]];
      }
      i := i + 1;
    }
    assert rs[..i] == rs;
  }

  // ---------------------------------------------------------------------
  // Answering one request

  /** The action typed after the request number: 1 accepts, 2 rejects, anything else is refused. */
  function ActionFor(input: string): (a: Option<string>)
    ensures a == Some("accept") <==> Atoi(TrimSpace(input)) == Some(1)
    ensures a == Some("reject") <==> Atoi(TrimSpace(input)) == Some(2)
    ensures a.Some? ==> a.value == "accept" || a.value == "reject"
  {
    match Atoi(TrimSpace(input))
    case Some(n) => if n == 1 then Some("accept") else if n == 2 then Some("reject") else None
    case None => None
  }

  /** How answering ended. */
  datatype Answer = NoCandidates | LineMissing | BadNumber | BadAction | NotRecorded | Recorded

  /** A response to respond_friend_request counts only with status 200. */
  predicate Accepted(r: Reply) {
    r.Response? && r.status == 200
  }

  /**
   * handleFriendRequestResponse: offer the answerable requests, read the
   * number and the action line by line, and send one answer for the sender
   * of the chosen request.
   */
  function Respond(w: World, requests: seq<FriendRequest>): (res: (Answer, World))
    ensures Grows(w, res.1) && Quiet(Since(w, res.1))
    ensures res.1.device == w.device && res.1.ttyFaults == w.ttyFaults
  {
    var kept := RespondableOf(requests);
    if kept == [] then
      Quietly(w, w.Say(NoRespondable), Say(NoRespondable));
      (NoCandidates, w.Say(NoRespondable))
    else
      var w1 := w.Offer(kept);
      var res := PickRequest(w1, kept);
      SinceChain(w, w1, res.1);
      QuietAppend([Offer(kept)], Since(w1, res.1));
      res
  }

  /** The request number: a line, trimmed, parsed and checked against the offer. */
  function PickRequest(w: World, kept: seq<FriendRequest>): (res: (Answer, World))
    ensures res.0 != NoCandidates
    ensures Grows(w, res.1) && Quiet(Since(w, res.1))
    ensures res.1.device == w.device && res.1.ttyFaults == w.ttyFaults
  {
    var line := w.ReadLine();
    if line.0.None? then
      Quietly(w, line.1.Say(InputError), Say(InputError));
      (LineMissing, line.1.Say(InputError))
    else
      var choice := Select(kept, TrimSpace(line.0.value));
      if choice.Err? then
        Quietly(w, line.1.Say(InvalidRequestNumber), Say(InvalidRequestNumber));
        (BadNumber, line.1.Say(InvalidRequestNumber))
      else
        assert line.1.trace == w.trace;
        PickAction(line.1, choice.value)
  }

  /** The action line, then the one call answering `chosen`'s sender. */
  function PickAction(w: World, chosen: FriendRequest): (res: (Answer, World))
    ensures res.0 != NoCandidates
    ensures Grows(w, res.1) && Quiet(Since(w, res.1))
    ensures res.1.device == w.device && res.1.ttyFaults == w.ttyFaults
  {
    var line := w.ReadLine();
    if line.0.None? then
      Quietly(w, line.1.Say(InputError), Say(InputError));
      (LineMissing, line.1.Say(InputError))
    else
      var action := ActionFor(line.0.value);
      if action.None? then
        Quietly(w, line.1.Say(InvalidChoice), Say(InvalidChoice));
        (BadAction, line.1.Say(InvalidChoice))
      else
        var q := RespondToRequest(chosen.senderUsername, action.value);
        var call := line.1.Call(q);
        var n := if Accepted(call.0) then Responded else RespondFailed;
        Quietly2(w, call.1, call.1.Say(n), Call(q), Say(n));
        (if Accepted(call.0) then Recorded else NotRecorded, call.1.Say(n))
  }

  /** With nothing to answer the flow says so, reads nothing and calls nothing. */
  lemma RespondWithoutCandidates(w: World, requests: seq<FriendRequest>)
    ensures var res := Respond(w, requests);
      (res.0 == NoCandidates <==> RespondableOf(requests) == []) &&
      (res.0 == NoCandidates ==> res.1.stdin == w.stdin && Since(w, res.1) == [Say(NoRespondable)])
  {
    if RespondableOf(requests) == [] {
      Quietly(w, w.Say(NoRespondable), Say(NoRespondable));
    }
  }

  /**
   * The action stage calls the backend exactly when a valid action was
   * typed, once, for the sender of `chosen` with that action; the answer
   * is recorded exactly when that call is answered with status 200.
   */
  lemma PickActionCalls(w: World, chosen: FriendRequest)
    ensures var res := PickAction(w, chosen);
      var calls := Calls(Since(w, res.1));
      var line := w.ReadLine().0;
      (calls != [] <==> res.0 == Recorded || res.0 == NotRecorded) &&
      (calls != [] ==>
        line.Some? && ActionFor(line.value).Some? &&
        calls == [RespondToRequest(chosen.senderUsername, ActionFor(line.value).value)]) &&
      (res.0 == Recorded <==> calls != [] && w.replies != [] && Accepted(w.replies[0]))
  {
    var line := w.ReadLine();
    if line.0.None? {
      Quietly(w, line.1.Say(InputError), Say(InputError));
    } else if ActionFor(line.0.value).None? {
      Quietly(w, line.1.Say(InvalidChoice), Say(InvalidChoice));
    } else {
      var q := RespondToRequest(chosen.senderUsername, ActionFor(line.0.value).value);
      var call := line.1.Call(q);
      var n := if Accepted(call.0) then Responded else RespondFailed;
      Quietly2(w, call.1, call.1.Say(n), Call(q), Say(n));
    }
  }

  /** The number stage calls nothing itself: a valid number hands over to the action stage. */
  lemma PickRequestCalls(w: World, kept: seq<FriendRequest>)
    ensures var res := PickRequest(w, kept);
      var line := w.ReadLine();
      var picked := line.0.Some? && Select(kept, TrimSpace(line.0.value)).Ok?;
      (picked ==> res == PickAction(line.1, Select(kept, TrimSpace(line.0.value)).value) &&
                  Since(w, res.1) == Since(line.1, res.1)) &&
      (!picked ==> Calls(Since(w, res.1)) == [] && (res.0 == LineMissing || res.0 == BadNumber))
  {
    var line := w.ReadLine();
    if line.0.None? {
      Quietly(w, line.1.Say(InputError), Say(InputError));
    } else if Select(kept, TrimSpace(line.0.value)).Err? {
      Quietly(w, line.1.Say(InvalidRequestNumber), Say(InvalidRequestNumber));
    }
  }

  /**
   * The answer the next two lines of `w` ask for: the sender of the
   * offered request under the first line's number, with the action on
   * the second line, when both are valid.
   */
  function Requested(w: World, kept: seq<FriendRequest>): Option<Request> {
    var first := w.ReadLine();
    if first.0.None? then None
    else
      match Select(kept, TrimSpace(first.0.value))
      case Err(_) => None
      case Ok(chosen) =>
        var second := first.1.ReadLine();
        if second.0.None? then None
        else
          match ActionFor(second.0.value)
          case None => None
          case Some(action) => Some(RespondToRequest(chosen.senderUsername, action))
  }

  /** The requested answer depends on the input alone. */
  lemma RequestedReadsOnlyInput(w: World, v: World, kept: seq<FriendRequest>)
    requires v.stdin == w.stdin
    ensures Requested(v, kept) == Requested(w, kept)
  {
    assert v.ReadLine().0 == w.ReadLine().0 && v.ReadLine().1.stdin == w.ReadLine().1.stdin;
    assert v.ReadLine().1.ReadLine().0 == w.ReadLine().1.ReadLine().0;
  }

  /** With something to offer, exactly the requested answer is sent, if any. */
  lemma PickRequestSends(w: World, kept: seq<FriendRequest>)
    ensures var res := PickRequest(w, kept);
      var calls := Calls(Since(w, res.1));
      (calls != [] <==> res.0 == Recorded || res.0 == NotRecorded) &&
      calls == (if Requested(w, kept).Some? then [Requested(w, kept).value] else [])
  {
    PickRequestCalls(w, kept);
    var line := w.ReadLine();
    if line.0.Some? && Select(kept, TrimSpace(line.0.value)).Ok? {
      var chosen := Select(kept, TrimSpace(line.0.value)).value;
      var second := line.1.ReadLine().0;
      PickActionCalls(line.1, chosen);
      assert Requested(w, kept) ==
        if second.Some? && ActionFor(second.value).Some?
        then Some(RespondToRequest(chosen.senderUsername, ActionFor(second.value).value)) else None;
    } else {
      assert Requested(w, kept) == None;
    }
  }

  /**
   * At most one answer is sent, and only after a valid number and a valid
   * action: it names the sender of the request shown under that number
   * and carries the action typed. Nothing is retried.
   */
  lemma RespondCallsOnce(w: World, requests: seq<FriendRequest>)
    ensures var res := Respond(w, requests);
      var calls := Calls(Since(w, res.1));
      var kept := RespondableOf(requests);
      (calls != [] <==> res.0 == Recorded || res.0 == NotRecorded) &&
      calls == (if kept != [] && Requested(w, kept).Some? then [Requested(w, kept).value] else [])
  {
    var kept := RespondableOf(requests);
    if kept == [] {
      assert Respond(w, requests) == (NoCandidates, w.Say(NoRespondable));
      Did(w, w.Say(NoRespondable), Say(NoRespondable));
      Single(Say(NoRespondable));
    } else {
      var w0 := w.Offer(kept);
      var res := PickRequest(w0, kept);
      assert Respond(w, requests) == res;
      Did(w, w0, Offer(kept));
      Single(Offer(kept));
      SinceChain(w, w0, res.1);
      assert Calls(Since(w, res.1)) == Calls(Since(w0, res.1));
      PickRequestSends(w0, kept);
      RequestedReadsOnlyInput(w, w0, kept);
    }
  }

  /** Answering sends one call at most. */
  lemma RespondCallsAtMostOnce(w: World, requests: seq<FriendRequest>)
    ensures |Calls(Since(w, Respond(w, requests).1))| <= 1
  {
    RespondCallsOnce(w, requests);
  }

  /** The answer is recorded exactly when the backend accepts it with status 200. */
  lemma RecordedOnlyWhenAccepted(w: World, requests: seq<FriendRequest>)
    ensures var res := Respond(w, requests);
      res.0 == Recorded || res.0 == NotRecorded ==>
        (res.0 == Recorded <==> w.replies != [] && Accepted(w.replies[0]))
  {
    var kept := RespondableOf(requests);
    if kept != [] {
      var w0 := w.Offer(kept);
      PickRequestCalls(w0, kept);
      var line := w0.ReadLine();
      if line.0.Some? && Select(kept, TrimSpace(line.0.value)).Ok? {
        PickActionCalls(line.1, Select(kept, TrimSpace(line.0.value)).value);
      }
    }
  }

  /** The flow answering over the console. */
  method RespondToRequests(con: Console, requests: seq<FriendRequest>) returns (a: Answer)
    modifies con
    ensures (a, con.State()) == Respond(old(con.State()), requests)
  {
    var kept := CollectRespondable(requests);
    if kept == [] {
      con.Say(NoRespondable);
      return NoCandidates;
    }
    con.Offer(kept);
    var line := con.ReadLine();
    if line.None? {
      con.Say(InputError);
      return LineMissing;
    }
    var choice := Select(kept, TrimSpace(line.value));
    if choice.Err? {
      con.Say(InvalidRequestNumber);
      return BadNumber;
    }
    var line2 := con.ReadLine();
    if line2.None? {
      con.Say(InputError);
      return LineMissing;
    }
    var action := ActionFor(line2.value);
    if action.None? {
      con.Say(InvalidChoice);
      return BadAction;
    }
    var reply := con.Call(RespondToRequest(choice.value.senderUsername, action.value));
    if Accepted(reply) {
      con.Say(Responded);
      a := Recorded;
    } else {
      con.Say(RespondFailed);
      a := NotRecorded;
    }
  }

  // ---------------------------------------------------------------------
  // Waiting for Ctrl+R

  /** How the wait for Ctrl+R ended. */
  datatype Stop = NoRawMode | InputEnded | KeyHandled(answer: Answer) | Interrupted

  /**
   * The read loop after raw mode was entered with snapshot `saved`: only
   * Ctrl+R and Ctrl+C matter. Ctrl+R restores, answers and returns, after
   * which the deferred restore applies `saved` again; the end of input
   * returns through the deferred restore; Ctrl+C exits without it.
   */
  function AwaitKey(w: World, saved: Termios, requests: seq<FriendRequest>): (res: (Stop, World))
    ensures Grows(w, res.1)
    decreases |w.stdin|
  {
    var (b, w1) := w.ReadByte();
    if b.None? then
      Did2(w, w1.Say(InputError), w1.Say(InputError).Restore(saved), Say(InputError), RestoreTo(saved));
      (InputEnded, w1.Say(InputError).Restore(saved))
    else if b.value == ReceiveMessage.CtrlR then
      var (a, w2) := Respond(w1.Restore(saved), requests);
      Did(w, w1.Restore(saved), RestoreTo(saved));
      Did(w2, w2.Restore(saved), RestoreTo(saved));
      SinceChain(w, w1.Restore(saved), w2);
      SinceChain(w, w2, w2.Restore(saved));
      (KeyHandled(a), w2.Restore(saved))
    else if b.value == ReceiveMessage.CtrlC then
      Did2(w, w1.Say(Exiting), w1.Say(Exiting).Exit(0), Say(Exiting), Exit(0));
      (Interrupted, w1.Say(Exiting).Exit(0))
    else
      var res := AwaitKey(w1, saved, requests);
      Same(w, w1);
      SinceChain(w, w1, res.1);
      res
  }

  /** waitForCtrlR: enter raw mode, or report that it could not be entered and return. */
  function AwaitCtrlR(w: World, requests: seq<FriendRequest>): (res: (Stop, World))
    ensures Grows(w, res.1)
  {
    var (snap, w1) := w.MakeRaw();
    if snap.None? then (NoRawMode, w1.Say(RawModeError))
    else
      var res := AwaitKey(w1, snap.value, requests);
      SinceChain(w, w1, res.1);
      res
  }

  /** Bytes other than 18 and 3 are read and ignored. */
  lemma {:induction false} AwaitSkips(w: World, n: nat, saved: Termios, requests: seq<FriendRequest>)
    requires n <= |w.stdin|
    requires forall i :: 0 <= i < n ==> w.stdin[i] != ReceiveMessage.CtrlR && w.stdin[i] != ReceiveMessage.CtrlC
    ensures AwaitKey(w, saved, requests) == AwaitKey(w.(stdin := w.stdin[n..]), saved, requests)
    decreases n
  {
    if n > 0 {
      var w1 := w.(stdin := w.stdin[1..]);
      AwaitSkips(w1, n - 1, saved, requests);
      assert w1.stdin[n - 1..] == w.stdin[n..];
    }
  }

  /** The input left after the first Ctrl+R or Ctrl+C; everything when neither was typed. */
  function PastKey(s: seq<char>): (rest: seq<char>)
    ensures |rest| <= |s|
  {
    if s == [] then []
    else if s[0] == ReceiveMessage.CtrlR || s[0] == ReceiveMessage.CtrlC then s[1..]
    else PastKey(s[1..])
  }

  /**
   * Everything the loop does happens in its last pass: the passes before
   * only read. Ctrl+R answers from the input past that key.
   */
  lemma {:induction false} AwaitLastPass(w: World, saved: Termios, requests: seq<FriendRequest>)
    ensures var res := AwaitKey(w, saved, requests);
      var t := Since(w, res.1);
      (res.0 == InputEnded ==> res.1.stdin == [] && t == [Say(InputError), RestoreTo(saved)] && res.1.device == saved) &&
      (res.0 == Interrupted ==> t == [Say(Exiting), Exit(0)] && res.1.device == w.device) &&
      (res.0.KeyHandled? ==> res.1 == Respond(w.(stdin := PastKey(w.stdin)).Restore(saved), requests).1.Restore(saved)) &&
      res.0 != NoRawMode
    decreases |w.stdin|
  {
    var (b, w1) := w.ReadByte();
    if b.Some? && b.value != ReceiveMessage.CtrlR && b.value != ReceiveMessage.CtrlC {
      AwaitLastPass(w1, saved, requests);
      var r := AwaitKey(w1, saved, requests).1;
      assert Since(w, r) == Since(w1, r);
      assert w1.(stdin := PastKey(w1.stdin)) == w.(stdin := PastKey(w.stdin));
    }
  }

  /** One pass of answering, bracketed by the two restores of the snapshot. */
  lemma Bracketed(v: World, saved: Termios, requests: seq<FriendRequest>)
    ensures Grows(v, Respond(v.Restore(saved), requests).1.Restore(saved))
    ensures var r := Respond(v.Restore(saved), requests).1.Restore(saved);
      var t := Since(v, r);
      r.device == saved && Restores(t) == [saved, saved] && t[|t| - 1] == RestoreTo(saved)
  {
    var a := v.Restore(saved);
    var m := Respond(a, requests).1;
    var r := m.Restore(saved);
    RespondCallsAtMostOnce(a, requests);
    QuietCounts(Since(a, m));
    Single(RestoreTo(saved));
    Bracket(v, a, m, r, [RestoreTo(saved)], [RestoreTo(saved)]);
    assert Restores(Since(v, r)) == [saved] + [] + [saved];
  }

  /** The pass between the two restores enters nothing, exits nothing and calls at most once. */
  lemma BracketedQuiet(v: World, saved: Termios, requests: seq<FriendRequest>)
    ensures Grows(v, Respond(v.Restore(saved), requests).1.Restore(saved))
    ensures var t := Since(v, Respond(v.Restore(saved), requests).1.Restore(saved));
      EnterCount(t) == 0 && Exits(t) == [] && |Calls(t)| <= 1
  {
    var a := v.Restore(saved);
    var m := Respond(a, requests).1;
    var r := m.Restore(saved);
    RespondCallsAtMostOnce(a, requests);
    QuietCounts(Since(a, m));
    Single(RestoreTo(saved));
    Bracket(v, a, m, r, [RestoreTo(saved)], [RestoreTo(saved)]);
  }

  /**
   * Ctrl+R is handled once: the snapshot is restored twice (before the
   * answer and by the deferred call) for the one entry into raw mode, and
   * the terminal ends as it was found.
   */
  lemma CtrlRRestoresTwice(w: World, requests: seq<FriendRequest>)
    ensures AwaitCtrlR(w, requests).0.KeyHandled? ==>
      AwaitCtrlR(w, requests).1.device == w.device &&
      Restores(Since(w, AwaitCtrlR(w, requests).1)) == [w.device, w.device] &&
      Since(w, AwaitCtrlR(w, requests).1)[|Since(w, AwaitCtrlR(w, requests).1)| - 1] == RestoreTo(w.device)
  {
    var (snap, w1) := w.MakeRaw();
    if snap.Some? {
      var r := AwaitKey(w1, snap.value, requests).1;
      assert AwaitCtrlR(w, requests) == AwaitKey(w1, snap.value, requests);
      AwaitLastPass(w1, snap.value, requests);
      if AwaitKey(w1, snap.value, requests).0.KeyHandled? {
        var v := w1.(stdin := PastKey(w1.stdin));
        Bracketed(v, snap.value, requests);
        RestoresAfterEntry(w, v, r, snap.value);
      }
    }
  }

  /** An entry into raw mode before a stretch adds no restore to it and keeps its last event. */
  lemma RestoresAfterEntry(w: World, v: World, r: World, saved: Termios)
    requires v.trace == w.trace + [EnterRaw(true)] && Grows(v, r)
    requires Restores(Since(v, r)) == [saved, saved] && Since(v, r) != [] && Since(v, r)[|Since(v, r)| - 1] == RestoreTo(saved)
    ensures Grows(w, r) && Restores(Since(w, r)) == [saved, saved]
    ensures Since(w, r) != [] && Since(w, r)[|Since(w, r)| - 1] == RestoreTo(saved)
  {
    Bracket(w, v, r, r, [EnterRaw(true)], []);
    Single(EnterRaw(true));
    assert Since(w, r) == [EnterRaw(true)] + Since(v, r);
  }

  /** An entry into raw mode before a stretch adds one entry to it and no exit or call. */
  lemma CountsAfterEntry(w: World, v: World, r: World)
    requires v.trace == w.trace + [EnterRaw(true)] && Grows(v, r)
    requires EnterCount(Since(v, r)) == 0 && Exits(Since(v, r)) == [] && |Calls(Since(v, r))| <= 1
    ensures Grows(w, r) && EnterCount(Since(w, r)) == 1 && Exits(Since(w, r)) == [] && |Calls(Since(w, r))| <= 1
  {
    Bracket(w, v, r, r, [EnterRaw(true)], []);
    Single(EnterRaw(true));
  }

  /** Handling Ctrl+R enters raw mode once, exits nothing and sends at most one answer. */
  lemma CtrlRAnswersAtMostOnce(w: World, requests: seq<FriendRequest>)
    ensures AwaitCtrlR(w, requests).0.KeyHandled? ==>
      EnterCount(Since(w, AwaitCtrlR(w, requests).1)) == 1 &&
      Exits(Since(w, AwaitCtrlR(w, requests).1)) == [] &&
      |Calls(Since(w, AwaitCtrlR(w, requests).1))| <= 1
  {
    var (snap, w1) := w.MakeRaw();
    if snap.Some? {
      var r := AwaitKey(w1, snap.value, requests).1;
      assert AwaitCtrlR(w, requests) == AwaitKey(w1, snap.value, requests);
      AwaitLastPass(w1, snap.value, requests);
      if AwaitKey(w1, snap.value, requests).0.KeyHandled? {
        var v := w1.(stdin := PastKey(w1.stdin));
        BracketedQuiet(v, snap.value, requests);
        CountsAfterEntry(w, v, r);
      }
    }
  }

  /**
   * The other ends: without raw mode nothing is read; at the end of input
   * the deferred restore is the last thing done; Ctrl+C exits with status
   * 0 and leaves the terminal raw. None of them calls the backend.
   */
  lemma AwaitOtherEnds(w: World, requests: seq<FriendRequest>)
    ensures var res := AwaitCtrlR(w, requests);
      var t := Since(w, res.1);
      (res.0 == NoRawMode <==> w.ttyFaults != [] && w.ttyFaults[0]) &&
      (res.0 == NoRawMode ==> res.1.stdin == w.stdin && t == [EnterRaw(false), Say(RawModeError)]) &&
      (res.0 == InputEnded ==> t == [EnterRaw(true), Say(InputError), RestoreTo(w.device)] && res.1.device == w.device) &&
      (res.0 == Interrupted ==> t == [EnterRaw(true), Say(Exiting), Exit(0)] && res.1.device == RawSettings(w.device))
  {
    var (snap, w1) := w.MakeRaw();
    if snap.Some? {
      var r := AwaitKey(w1, snap.value, requests).1;
      AwaitLastPass(w1, snap.value, requests);
      SinceChain(w, w1, r);
    }
  }

  /** waitForCtrlR over the console. */
  method WaitForCtrlR(con: Console, requests: seq<FriendRequest>) returns (stop: Stop)
    modifies con
    ensures (stop, con.State()) == AwaitCtrlR(old(con.State()), requests)
  {
    var snap := con.MakeRaw();
    if snap.None? {
      con.Say(RawModeError);
      return NoRawMode;
    }
    var saved := snap.value;
    while true
      invariant AwaitKey(con.State(), saved, requests) == AwaitCtrlR(old(con.State()), requests)
      decreases |con.stdin|
    {
      var b := con.ReadByte();
      if b.None? {
        con.Say(InputError);
        con.Restore(saved);
        return InputEnded;
      }
      if b.value == ReceiveMessage.CtrlR {
        con.Restore(saved);
        var a := RespondToRequests(con, requests);
        con.Restore(saved);
        return KeyHandled(a);
      }
      if b.value == ReceiveMessage.CtrlC {
        con.Say(Exiting);
        con.Exit(0);
        return Interrupted;
      }
    }
  }

  // ---------------------------------------------------------------------
  // The menu and the command

  /** The menu answer: a number, and 1 or 2 at that. */
  function MenuChoice(token: string): (r: Result<int, SelectError>)
    ensures r.Ok? ==> r.value == 1 || r.value == 2
    ensures r.Ok? <==> Atoi(token) == Some(1) || Atoi(token) == Some(2)
  {
    Select([1, 2], token)
  }

  /** How the command ended, when it did not exit from inside the wait. */
  datatype Managed = MenuError | FetchError | Listed | Awaited(stop: Stop)

  /** A request list counts as fetched with status 200 and a decodable body. */
  predicate Fetched(r: Reply) {
    r.Response? && r.status == 200 && r.body.Some?
  }

  /**
   * manageFriendRequests: a menu error exits with status 1; otherwise the
   * chosen list is handled. The menu gives nothing but 1 or 2, so the
   * switch's default branch, which would ask again, cannot be taken.
   */
  function Manage(w: World): (res: (Managed, World))
    ensures Grows(w, res.1)
  {
    var w1 := w.ScanToken().1;
    var choice := MenuChoice(w.ScanToken().0);
    assert w1.trace == w.trace;
    if choice.Err? then
      Did2(w1, w1.Say(MenuFailed), w1.Say(MenuFailed).Exit(1), Say(MenuFailed), Exit(1));
      (MenuError, w1.Say(MenuFailed).Exit(1))
    else
      Handle(w1, choice.value == 1)
  }

  /**
   * handleIncomingRequests and handleOutgoingRequests: fetch and list the
   * chosen requests, and for incoming ones wait for Ctrl+R; a failed fetch
   * exits with status 1.
   */
  function Handle(w: World, incoming: bool): (res: (Managed, World))
    ensures Grows(w, res.1)
    ensures res.0 != MenuError && (res.0.Awaited? ==> incoming) && (res.0 == Listed ==> !incoming)
  {
    var (reply, w1) := w.Call(FetchRequests(incoming));
    if !Fetched(reply) then
      Did2(w1, w1.Say(HandlerFailed), w1.Say(HandlerFailed).Exit(1), Say(HandlerFailed), Exit(1));
      Did(w, w1, Call(FetchRequests(incoming)));
      SinceChain(w, w1, w1.Say(HandlerFailed).Exit(1));
      (FetchError, w1.Say(HandlerFailed).Exit(1))
    else
      var w2 := w1.List(reply.body.value.requests);
      Did2(w, w1, w2, Call(FetchRequests(incoming)), List(reply.body.value.requests));
      if incoming then
        var (stop, w3) := AwaitCtrlR(w2, reply.body.value.requests);
        SinceChain(w, w2, w3);
        (Awaited(stop), w3)
      else (Listed, w2)
  }

  /** A menu answer other than 1 or 2 reports and exits with status 1, calling nothing. */
  lemma ManageMenuError(w: World)
    ensures var res := Manage(w);
      (res.0 == MenuError <==> MenuChoice(w.ScanToken().0).Err?) &&
      (res.0 == MenuError ==> Since(w, res.1) == [Say(MenuFailed), Exit(1)])
  {
    var (token, w1) := w.ScanToken();
    if MenuChoice(token).Err? {
      Did2(w, w1.Say(MenuFailed), w1.Say(MenuFailed).Exit(1), Say(MenuFailed), Exit(1));
    }
  }

  /** The first thing handling does is fetch the chosen list; outgoing requests are only listed. */
  lemma HandleFetchesFirst(w: World, incoming: bool)
    ensures var res := Handle(w, incoming);
      var t := Since(w, res.1);
      t != [] && t[0] == Call(FetchRequests(incoming)) &&
      (res.0 == Listed ==> Calls(t) == [FetchRequests(false)])
  {
    var (reply, w1) := w.Call(FetchRequests(incoming));
    Did(w, w1, Call(FetchRequests(incoming)));
    if !Fetched(reply) {
      var r := w1.Say(HandlerFailed).Exit(1);
      Did2(w1, w1.Say(HandlerFailed), r, Say(HandlerFailed), Exit(1));
      SinceChain(w, w1, r);
    } else {
      var w2 := w1.List(reply.body.value.requests);
      Did2(w, w1, w2, Call(FetchRequests(incoming)), List(reply.body.value.requests));
      Pair(Call(FetchRequests(incoming)), List(reply.body.value.requests));
      if incoming {
        var w3 := AwaitCtrlR(w2, reply.body.value.requests).1;
        SinceChain(w, w2, w3);
      }
    }
  }

  /**
   * The menu decides the list: the one call before any wait fetches the
   * incoming list exactly when 1 was typed, only then is Ctrl+R awaited,
   * and typing 2 makes that fetch the only call.
   */
  lemma ManageFetchesTheChosenList(w: World)
    ensures Grows(w, Manage(w).1)
    ensures Manage(w).0 != MenuError ==>
      Since(w, Manage(w).1) != [] && Since(w, Manage(w).1)[0] == Call(FetchRequests(Atoi(w.ScanToken().0) == Some(1)))
    ensures Manage(w).0.Awaited? ==> Atoi(w.ScanToken().0) == Some(1)
    ensures Manage(w).0 == Listed ==> Atoi(w.ScanToken().0) == Some(2) && Calls(Since(w, Manage(w).1)) == [FetchRequests(false)]
  {
    var (token, w1) := w.ScanToken();
    if MenuChoice(token).Ok? {
      HandleFetchesFirst(w1, MenuChoice(token).value == 1);
      Same(w, w1);
    }
  }

  /** manageFriendRequests over the console. */
  method ManageFriendRequests(con: Console) returns (m: Managed)
    modifies con
    ensures (m, con.State()) == Manage(old(con.State()))
  {
    var token := con.ScanToken();
    var choice := MenuChoice(token);
    if choice.Err? {
      con.Say(MenuFailed);
      con.Exit(1);
      return MenuError;
    }
    m := HandleRequests(con, choice.value == 1);
  }

  /** handleIncomingRequests or handleOutgoingRequests over the console. */
  method HandleRequests(con: Console, incoming: bool) returns (m: Managed)
    modifies con
    ensures (m, con.State()) == Handle(old(con.State()), incoming)
  {
    var reply := con.Call(FetchRequests(incoming));
    if !Fetched(reply) {
      con.Say(HandlerFailed);
      con.Exit(1);
      return FetchError;
    }
    con.List(reply.body.value.requests);
    if incoming {
      var stop := WaitForCtrlR(con, reply.body.value.requests);
      m := Awaited(stop);
    } else {
      m := Listed;
    }
  }
}
