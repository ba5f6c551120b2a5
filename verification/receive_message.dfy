/**
 * The receive command (src/receive_message.go): pick a friend, show the
 * conversation, then wait in raw mode for Ctrl+R (refresh), Ctrl+S (send a
 * message) or Ctrl+C (quit).
 */
module ReceiveMessage {
  import opened Wrappers
  import opened Terminal
  import opened Types
  import opened Text
  import opened Console
  import opened Conversation
  import opened Selection

  const CtrlC: char := 3 as char
  const CtrlR: char := 18 as char
  const CtrlS: char := 19 as char

  predicate Recognised(c: char) {
    c == CtrlR || c == CtrlS || c == CtrlC
  }

  /** A call about the peer's conversation: fetching it or sending into it. */
  predicate ToPeer(q: Request, peerId: string) {
    q == Request.FetchConversation(peerId) || (q.SendMessage? && q.recipientId == peerId)
  }

  // ---------------------------------------------------------------------
  // handleSendMessage

  datatype SendOutcome = Cancelled | Sent | ReadError | Rejected {
    /** handleSendMessage returned an error. */
    predicate Failed() {
      this == ReadError || this == Rejected
    }
  }

  /** sendMessageToFriend accepts status 200 whether or not the body decodes. */
  predicate Delivered(r: Reply) {
    r.Response? && r.status == 200
  }

  /**
   * sendMessageToFriend and what follows it in handleSendMessage: one call
   * carrying the text; only when the backend accepts it, one fetch of the
   * conversation, whose failure is reported and does not change the outcome.
   */
  function Deliver(w: World, text: string, me: string, peerId: string, peerName: string): (res: (SendOutcome, World))
    ensures res.0 == Sent || res.0 == Rejected
    ensures res.0 == Sent <==> w.replies != [] && Delivered(w.replies[0])
    ensures Grows(w, res.1) && Quiet(Since(w, res.1))
    ensures res.1.device == w.device && res.1.ttyFaults == w.ttyFaults && res.1.stdin == w.stdin
    ensures res.0 == Rejected ==> Calls(Since(w, res.1)) == [Request.SendMessage(peerId, text)]
    ensures res.0 == Sent ==> Calls(Since(w, res.1)) == [Request.SendMessage(peerId, text), Request.FetchConversation(peerId)]
  {
    var q := Request.SendMessage(peerId, text);
    var (reply, w1) := w.Call(q);
    Quietly(w, w1, Event.Call(q));
    if !Delivered(reply) then (Rejected, w1)
    else
      var w2 := w1.Say(MessageSent);
      Quietly2(w, w1, w2, Event.Call(q), Event.Say(MessageSent));
      var (ok, w3) := Fetch(w2, me, peerId, peerName);
      QuietChain(w, w2, w3);
      if ok then (Sent, w3)
      else
        Quietly(w3, w3.Say(RefreshFailed), Event.Say(RefreshFailed));
        QuietChain(w, w3, w3.Say(RefreshFailed));
        (Sent, w3.Say(RefreshFailed))
  }

  /**
   * handleSendMessage: read one line, trim it, refuse an empty message,
   * otherwise deliver it.
   */
  function SendFlow(w: World, me: string, peerId: string, peerName: string): (res: (SendOutcome, World))
    ensures Grows(w, res.1) && Quiet(Since(w, res.1))
    ensures res.1.device == w.device && res.1.ttyFaults == w.ttyFaults && |res.1.stdin| <= |w.stdin|
  {
    var (line, w1) := w.ReadLine();
    Same(w, w1);
    if line.None? then (ReadError, w1)
    else
      var text := TrimSpace(line.value);
      if text == [] then
        Quietly(w, w1.Say(EmptyMessage), Event.Say(EmptyMessage));
        (Cancelled, w1.Say(EmptyMessage))
      else
        assert w1.trace == w.trace;
        Deliver(w1, text, me, peerId, peerName)
  }

  method HandleSendMessage(con: Console, me: string, peerId: string, peerName: string) returns (out: SendOutcome)
    modifies con
    ensures (out, con.State()) == SendFlow(old(con.State()), me, peerId, peerName)
  {
    var line := con.ReadLine();
    if line.None? {
      return ReadError;
    }
    var text := TrimSpace(line.value);
    if text == [] {
      con.Say(EmptyMessage);
      return Cancelled;
    }
    out := SendMessageToFriend(con, text, me, peerId, peerName);
  }

  method SendMessageToFriend(con: Console, text: string, me: string, peerId: string, peerName: string) returns (out: SendOutcome)
    modifies con
    ensures (out, con.State()) == Deliver(old(con.State()), text, me, peerId, peerName)
  {
    var reply := con.Call(Request.SendMessage(peerId, text));
    if !Delivered(reply) {
      return Rejected;
    }
    con.Say(MessageSent);
    var ok := RunFetch(con, me, peerId, peerName);
    if !ok {
      con.Say(RefreshFailed);
    }
    out := Sent;
  }

  /**
   * How handleSendMessage ends: an error reading the line; a line blank
   * once trimmed is refused; otherwise the message is sent, and the outcome
   * is Sent exactly when the backend accepts it.
   */
  lemma SendFlowOutcome(w: World, me: string, peerId: string, peerName: string)
    ensures var out := SendFlow(w, me, peerId, peerName).0;
      var line := w.ReadLine().0;
      (out == ReadError <==> line.None?) &&
      (out == Cancelled <==> line.Some? && AllSpace(line.value)) &&
      (out == Sent <==> line.Some? && !AllSpace(line.value) && w.replies != [] && Delivered(w.replies[0]))
  {
  }

  /**
   * What handleSendMessage calls: nothing unless a non-blank line was read;
   * then the trimmed line goes to the peer in one call, and only a
   * delivered message is followed by one fetch of the conversation.
   */
  lemma SendFlowCalls(w: World, me: string, peerId: string, peerName: string)
    ensures var res := SendFlow(w, me, peerId, peerName);
      res.0 == ReadError || res.0 == Cancelled ==> Calls(Since(w, res.1)) == []
    ensures var res := SendFlow(w, me, peerId, peerName);
      var line := w.ReadLine().0;
      res.0 == Rejected || res.0 == Sent ==>
        line.Some? &&
        Calls(Since(w, res.1)) == [Request.SendMessage(peerId, TrimSpace(line.value))] +
          (if res.0 == Sent then [Request.FetchConversation(peerId)] else [])
  {
    var (line, w1) := w.ReadLine();
    if line.None? {
      Same(w, w1);
    } else if TrimSpace(line.value) == [] {
      Quietly(w, w1.Say(EmptyMessage), Event.Say(EmptyMessage));
    } else {
      assert w1.trace == w.trace;
    }
  }

  lemma SendCallsToPeer(w: World, me: string, peerId: string, peerName: string)
    ensures var r := SendFlow(w, me, peerId, peerName).1;
      |Calls(Since(w, r))| <= 2 && AllToPeer(Calls(Since(w, r)), peerId)
  {
    SendFlowCalls(w, me, peerId, peerName);
    var res := SendFlow(w, me, peerId, peerName);
    if res.0 == Rejected || res.0 == Sent {
      var line := w.ReadLine().0;
      var text := TrimSpace(line.value);
      assert AllToPeer([Request.FetchConversation(peerId)], peerId);
    }
  }

  // ---------------------------------------------------------------------
  // waitForCtrlRInReceiveMessage

  /** Every call of `qs` concerns the peer's conversation. */
  predicate AllToPeer(qs: seq<Request>, peerId: string) {
    qs == [] || (ToPeer(qs[0], peerId) && AllToPeer(qs[1..], peerId))
  }

  lemma {:induction false} AllToPeerExactly(qs: seq<Request>, peerId: string)
    ensures AllToPeer(qs, peerId) <==> forall q | q in qs :: ToPeer(q, peerId)
  {
    if qs != [] {
      AllToPeerExactly(qs[1..], peerId);
      assert qs == [qs[0]] + qs[1..];
    }
  }

  lemma {:induction false} AllToPeerAppend(a: seq<Request>, b: seq<Request>, peerId: string)
    requires AllToPeer(a, peerId) && AllToPeer(b, peerId)
    ensures AllToPeer(a + b, peerId)
  {
    if a == [] {
      assert a + b == b;
    } else {
      assert (a + b)[0] == a[0] && (a + b)[1..] == a[1..] + b;
      AllToPeerAppend(a[1..], b, peerId);
    }
  }

  /** Every settings record of `xs` is `a` or `b`. */
  predicate Among(xs: seq<Termios>, a: Termios, b: Termios) {
    xs == [] || ((xs[0] == a || xs[0] == b) && Among(xs[1..], a, b))
  }

  lemma {:induction false} AmongExactly(xs: seq<Termios>, a: Termios, b: Termios)
    ensures Among(xs, a, b) <==> forall x | x in xs :: x == a || x == b
  {
    if xs != [] {
      AmongExactly(xs[1..], a, b);
      assert xs == [xs[0]] + xs[1..];
      if forall x | x in xs :: x == a || x == b {
        assert xs[0] in xs;
        assert forall x | x in xs[1..] :: x in xs;
      }
    }
  }

  lemma {:induction false} AmongAppend(xs: seq<Termios>, ys: seq<Termios>, a: Termios, b: Termios)
    requires Among(xs, a, b) && Among(ys, a, b)
    ensures Among(xs + ys, a, b)
  {
    if xs == [] {
      assert xs + ys == ys;
    } else {
      assert (xs + ys)[0] == xs[0] && (xs + ys)[1..] == xs[1..] + ys;
      AmongAppend(xs[1..], ys, a, b);
    }
  }

  /**
   * What a Ctrl+R or Ctrl+S does between restoring the terminal and
   * re-entering raw mode: a refresh is exactly one fetch, a send at most a
   * send and a fetch; every call concerns the peer, and a failure is only
   * reported.
   */
  function KeyAction(w: World, key: char, me: string, peerId: string, peerName: string): (r: World)
    requires key == CtrlR || key == CtrlS
    ensures Grows(w, r) && Quiet(Since(w, r))
    ensures r.device == w.device && r.ttyFaults == w.ttyFaults && |r.stdin| <= |w.stdin|
    ensures key == CtrlR ==> r.stdin == w.stdin && Calls(Since(w, r)) == [Request.FetchConversation(peerId)]
    ensures |Calls(Since(w, r))| <= 2 && AllToPeer(Calls(Since(w, r)), peerId)
  {
    if key == CtrlR then
      assert AllToPeer([Request.FetchConversation(peerId)], peerId);
      Refresh(w, me, peerId, peerName)
    else SendKey(w, me, peerId, peerName)
  }

  /** Ctrl+R: fetch the conversation once; report a failure. */
  function Refresh(w: World, me: string, peerId: string, peerName: string): (r: World)
    ensures Grows(w, r) && Quiet(Since(w, r))
    ensures r.device == w.device && r.ttyFaults == w.ttyFaults && r.stdin == w.stdin
    ensures Calls(Since(w, r)) == [Request.FetchConversation(peerId)]
  {
    var (ok, w1) := Fetch(w, me, peerId, peerName);
    if ok then w1
    else
      Quietly(w1, w1.Say(RefreshFailed), Event.Say(RefreshFailed));
      QuietChain(w, w1, w1.Say(RefreshFailed));
      w1.Say(RefreshFailed)
  }

  /** Ctrl+S: run handleSendMessage; report an error it returns. */
  function SendKey(w: World, me: string, peerId: string, peerName: string): (r: World)
    ensures Grows(w, r) && Quiet(Since(w, r))
    ensures r.device == w.device && r.ttyFaults == w.ttyFaults && |r.stdin| <= |w.stdin|
    ensures |Calls(Since(w, r))| <= 2 && AllToPeer(Calls(Since(w, r)), peerId)
  {
    var res := SendFlow(w, me, peerId, peerName);
    var w1 := res.1;
    SendCallsToPeer(w, me, peerId, peerName);
    if res.0.Failed() then
      var r := w1.Say(SendFailed);
      Quietly(w1, r, Event.Say(SendFailed));
      QuietChain(w, w1, r);
      assert Calls(Since(w, r)) == Calls(Since(w, w1));
      r
    else w1
  }

  datatype End = SetupFailed | ReadFailed | ReentryFailed | Exited

  /** One pass of the loop: it either ends the loop or continues with a snapshot in `oldState`. */
  datatype Step = Done(end: End, world: World) | Continue(world: World, oldState: Termios)

  /**
   * Ctrl+R or Ctrl+S: restore `current`, act, then enter raw mode again,
   * capturing the settings into `oldState`; when that fails, report it and
   * return, so the deferred restore applies `saved`.
   */
  function AfterKey(w: World, key: char, saved: Termios, current: Termios, me: string, peerId: string, peerName: string): (s: Step)
    requires key == CtrlR || key == CtrlS
    ensures Grows(w, s.world)
    ensures s.Continue? ==> |s.world.stdin| <= |w.stdin|
  {
    var w0 := w.Restore(current);
    var w1 := KeyAction(w0, key, me, peerId, peerName);
    var (snap, w2) := w1.MakeRaw();
    var r := if snap.None? then w2.Say(RawModeError).Restore(saved) else w2;
    SinceChain(w, w0, w1);
    SinceChain(w, w1, r);
    if snap.None? then Done(ReentryFailed, r) else Continue(r, snap.value)
  }

  /**
   * A key whose action is followed by a successful re-entry: one restore of
   * `current`, one entry into raw mode, no exit, and the new snapshot in
   * `oldState` equals `current`.
   */
  lemma AfterKeyReenters(w: World, key: char, saved: Termios, current: Termios, me: string, peerId: string, peerName: string)
    requires key == CtrlR || key == CtrlS
    ensures var s := AfterKey(w, key, saved, current, me, peerId, peerName);
      s.Continue? ==>
        Grows(w, s.world) && s.oldState == current && s.world.device == RawSettings(current) &&
        Restores(Since(w, s.world)) == [current] && EnterCount(Since(w, s.world)) == 1 &&
        Exits(Since(w, s.world)) == []
  {
    var w0 := w.Restore(current);
    var w1 := KeyAction(w0, key, me, peerId, peerName);
    var (snap, w2) := w1.MakeRaw();
    if snap.Some? {
      assert AfterKey(w, key, saved, current, me, peerId, peerName) == Continue(w2, snap.value);
      Bracket(w, w0, w1, w2, [RestoreTo(current)], [EnterRaw(true)]);
      Single(RestoreTo(current));
      Single(EnterRaw(true));
      QuietCounts(Since(w0, w1));
    }
  }

  /** Restoring and re-entering raw mode around a key's action calls nothing more. */
  lemma KeyActionCalls(w: World, key: char, current: Termios, me: string, peerId: string, peerName: string)
    requires key == CtrlR || key == CtrlS
    ensures var w1 := KeyAction(w.Restore(current), key, me, peerId, peerName);
      Grows(w, w1.MakeRaw().1) && Calls(Since(w, w1.MakeRaw().1)) == Calls(Since(w.Restore(current), w1))
  {
    var w0 := w.Restore(current);
    var w1 := KeyAction(w0, key, me, peerId, peerName);
    var (snap, w2) := w1.MakeRaw();
    Bracket(w, w0, w1, w2, [RestoreTo(current)], [EnterRaw(snap.Some?)]);
    Single(RestoreTo(current));
    Single(EnterRaw(snap.Some?));
  }

  /** The calls of a key's pass, whatever follows the action: at most two, all concerning the peer. */
  lemma AfterKeyCalls(w: World, key: char, saved: Termios, current: Termios, me: string, peerId: string, peerName: string)
    requires key == CtrlR || key == CtrlS
    ensures var s := AfterKey(w, key, saved, current, me, peerId, peerName);
      Grows(w, s.world) && |Calls(Since(w, s.world))| <= 2 && AllToPeer(Calls(Since(w, s.world)), peerId)
  {
    var w0 := w.Restore(current);
    var w1 := KeyAction(w0, key, me, peerId, peerName);
    var (snap, w2) := w1.MakeRaw();
    KeyActionCalls(w, key, current, me, peerId, peerName);
    if snap.None? {
      var r := w2.Say(RawModeError).Restore(saved);
      assert AfterKey(w, key, saved, current, me, peerId, peerName) == Done(ReentryFailed, r);
      GiveUpTail(w2, saved);
      SinceChain(w, w2, r);
      assert Calls(Since(w, r)) == Calls(Since(w, w2));
    } else {
      assert AfterKey(w, key, saved, current, me, peerId, peerName) == Continue(w2, snap.value);
    }
  }

  /** A key's pass starts by restoring `current` and does at least one more thing. */
  lemma AfterKeyOpens(w: World, key: char, saved: Termios, current: Termios, me: string, peerId: string, peerName: string)
    requires key == CtrlR || key == CtrlS
    ensures var s := AfterKey(w, key, saved, current, me, peerId, peerName);
      Grows(w, s.world) && |Since(w, s.world)| >= 2 && Since(w, s.world)[0] == RestoreTo(current)
  {
    var w0 := w.Restore(current);
    var w1 := KeyAction(w0, key, me, peerId, peerName);
    var (snap, w2) := w1.MakeRaw();
    Bracket(w, w0, w1, w2, [RestoreTo(current)], [EnterRaw(snap.Some?)]);
    if snap.None? {
      var r := w2.Say(RawModeError).Restore(saved);
      assert AfterKey(w, key, saved, current, me, peerId, peerName) == Done(ReentryFailed, r);
      GiveUpTail(w2, saved);
      SinceChain(w, w2, r);
    } else {
      assert AfterKey(w, key, saved, current, me, peerId, peerName) == Continue(w2, snap.value);
    }
  }

  /** Reporting a failed re-entry, then the deferred restore of `saved`. */
  lemma GiveUpTail(w: World, saved: Termios)
    ensures var r := w.Say(RawModeError).Restore(saved);
      Grows(w, r) && Since(w, r) == [Say(RawModeError), RestoreTo(saved)] &&
      Restores(Since(w, r)) == [saved] && EnterCount(Since(w, r)) == 0 &&
      Calls(Since(w, r)) == [] && Exits(Since(w, r)) == []
  {
    var r := w.Say(RawModeError).Restore(saved);
    Did2(w, w.Say(RawModeError), r, Say(RawModeError), RestoreTo(saved));
    Pair(Say(RawModeError), RestoreTo(saved));
  }

  /** Nothing exits around a stretch that exits nothing when nothing before or after it does. */
  lemma ExitsAround(a: World, b: World, c: World, d: World, pre: seq<Event>, post: seq<Event>)
    requires b.trace == a.trace + pre && Grows(b, c) && d.trace == c.trace + post
    requires Exits(pre) == [] && Exits(Since(b, c)) == [] && Exits(post) == []
    ensures Grows(a, d) && Exits(Since(a, d)) == []
  {
    Bracket(a, b, c, d, pre, post);
  }

  /** A stretch that exits nothing, followed by giving up: the restore of `saved` comes last. */
  lemma GiveUpAfter(w: World, m: World, saved: Termios)
    requires Grows(w, m) && Exits(Since(w, m)) == []
    ensures var r := m.Say(RawModeError).Restore(saved);
      Grows(w, r) && Since(w, r) != [] && Since(w, r)[|Since(w, r)| - 1] == RestoreTo(saved) &&
      Exits(Since(w, r)) == []
  {
    var r := m.Say(RawModeError).Restore(saved);
    GiveUpTail(m, saved);
    SinceChain(w, m, r);
    LastOfChain(w, m, r);
  }

  /**
   * A key whose re-entry fails: the loop ends with the terminal left at
   * `saved`, and nothing exited.
   */
  lemma AfterKeyGivesUp(w: World, key: char, saved: Termios, current: Termios, me: string, peerId: string, peerName: string)
    requires key == CtrlR || key == CtrlS
    ensures var s := AfterKey(w, key, saved, current, me, peerId, peerName);
      s.Done? ==> s.end == ReentryFailed && Grows(w, s.world) && s.world.device == saved && Exits(Since(w, s.world)) == []
  {
    var w0 := w.Restore(current);
    var w1 := KeyAction(w0, key, me, peerId, peerName);
    var (snap, w2) := w1.MakeRaw();
    if snap.None? {
      var r := w2.Say(RawModeError).Restore(saved);
      assert AfterKey(w, key, saved, current, me, peerId, peerName) == Done(ReentryFailed, r);
      Single(RestoreTo(current));
      Single(EnterRaw(false));
      QuietCounts(Since(w0, w1));
      ExitsAround(w, w0, w1, w2, [RestoreTo(current)], [EnterRaw(false)]);
      GiveUpAfter(w, w2, saved);
    }
  }

  /** There the last thing done is the restore of `saved`. */
  lemma AfterKeyGivesUpLast(w: World, key: char, saved: Termios, current: Termios, me: string, peerId: string, peerName: string)
    requires key == CtrlR || key == CtrlS
    ensures var s := AfterKey(w, key, saved, current, me, peerId, peerName);
      s.Done? ==> Grows(w, s.world) && Since(w, s.world) != [] && Since(w, s.world)[|Since(w, s.world)| - 1] == RestoreTo(saved)
  {
    var w0 := w.Restore(current);
    var w1 := KeyAction(w0, key, me, peerId, peerName);
    var (snap, w2) := w1.MakeRaw();
    if snap.None? {
      var r := w2.Say(RawModeError).Restore(saved);
      assert AfterKey(w, key, saved, current, me, peerId, peerName) == Done(ReentryFailed, r);
      GiveUpTail(w2, saved);
      LastOfChain(w, w2, r);
    }
  }


  /** Two stretches that restore once each, and enter raw mode not at all, do so twice together. */
  lemma RestoresPair(a: World, b: World, c: World, x: Termios, y: Termios)
    requires Grows(a, b) && Grows(b, c)
    requires Restores(Since(a, b)) == [x] && Restores(Since(b, c)) == [y]
    requires EnterCount(Since(a, b)) == 0 && EnterCount(Since(b, c)) == 0
    ensures Grows(a, c) && Restores(Since(a, c)) == [x, y] && EnterCount(Since(a, c)) == 0
  {
    SinceChain(a, b, c);
  }

  /**
   * A failed re-entry restores twice, first `current` and then `saved`,
   * and enters raw mode not at all.
   */
  lemma AfterKeyGivesUpRestores(w: World, key: char, saved: Termios, current: Termios, me: string, peerId: string, peerName: string)
    requires key == CtrlR || key == CtrlS
    ensures var s := AfterKey(w, key, saved, current, me, peerId, peerName);
      s.Done? ==>
        Grows(w, s.world) && Restores(Since(w, s.world)) == [current, saved] && EnterCount(Since(w, s.world)) == 0
  {
    var w0 := w.Restore(current);
    var w1 := KeyAction(w0, key, me, peerId, peerName);
    var (snap, w2) := w1.MakeRaw();
    if snap.None? {
      var r := w2.Say(RawModeError).Restore(saved);
      assert AfterKey(w, key, saved, current, me, peerId, peerName) == Done(ReentryFailed, r);
      Bracket(w, w0, w1, w2, [RestoreTo(current)], [EnterRaw(false)]);
      Single(RestoreTo(current));
      Single(EnterRaw(false));
      QuietCounts(Since(w0, w1));
      assert Restores(Since(w, w2)) == [current] + [] + [];
      assert EnterCount(Since(w, w2)) == 0;
      GiveUpTail(w2, saved);
      RestoresPair(w, w2, r, current, saved);
    }
  }

  /**
   * One iteration of the loop. `saved` is the snapshot the deferred restore
   * captured; `current` is the one held in `oldState` now.
   */
  function StepOnce(w: World, saved: Termios, current: Termios, me: string, peerId: string, peerName: string): (s: Step)
    ensures Grows(w, s.world)
    ensures s.Continue? ==> |s.world.stdin| < |w.stdin|
    ensures s.Done? ==> s.end != SetupFailed
  {
    var (b, w1) := w.ReadByte();
    if b.None? then Done(ReadFailed, w1.Say(InputError).Restore(saved))
    else if b.value == CtrlR || b.value == CtrlS then AfterKey(w1, b.value, saved, current, me, peerId, peerName)
    else if b.value == CtrlC then Done(Exited, w1.Say(Exiting).Exit(0))
    else Continue(w1, current)
  }

  /**
   * A pass of the loop that does not end it leaves the terminal raw over
   * the same settings, keeps `oldState` equal to `current`, and exits
   * nothing.
   */
  lemma StepContinues(w: World, saved: Termios, current: Termios, me: string, peerId: string, peerName: string)
    requires w.device == RawSettings(current)
    ensures var s := StepOnce(w, saved, current, me, peerId, peerName);
      s.Continue? ==>
        Grows(w, s.world) && s.oldState == current && s.world.device == RawSettings(current) &&
        Exits(Since(w, s.world)) == []
  {
    var (b, w1) := w.ReadByte();
    Same(w, w1);
    if b.Some? && (b.value == CtrlR || b.value == CtrlS) {
      var s := AfterKey(w1, b.value, saved, current, me, peerId, peerName);
      assert StepOnce(w, saved, current, me, peerId, peerName) == s;
      AfterKeyReenters(w1, b.value, saved, current, me, peerId, peerName);
      if s.Continue? {
        SinceChain(w, w1, s.world);
      }
    } else if b.Some? && b.value != CtrlC {
      assert StepOnce(w, saved, current, me, peerId, peerName) == Continue(w1, current);
    }
  }

  /**
   * Such a pass restores and enters raw mode equally often: either
   * neither, or one restore of `current` and one entry.
   */
  lemma StepContinuesRestores(w: World, saved: Termios, current: Termios, me: string, peerId: string, peerName: string)
    ensures var s := StepOnce(w, saved, current, me, peerId, peerName);
      var t := Since(w, s.world);
      s.Continue? ==>
        s.oldState == current &&
        ((Restores(t) == [] && EnterCount(t) == 0) || (Restores(t) == [current] && EnterCount(t) == 1))
  {
    var (b, w1) := w.ReadByte();
    Same(w, w1);
    if b.Some? && (b.value == CtrlR || b.value == CtrlS) {
      var s := AfterKey(w1, b.value, saved, current, me, peerId, peerName);
      assert StepOnce(w, saved, current, me, peerId, peerName) == s;
      AfterKeyReenters(w1, b.value, saved, current, me, peerId, peerName);
      if s.Continue? {
        SinceChain(w, w1, s.world);
      }
    } else if b.Some? && b.value != CtrlC {
      assert StepOnce(w, saved, current, me, peerId, peerName) == Continue(w1, current);
    }
  }

  /** Whatever a pass does, its calls all concern the peer. */
  lemma StepCalls(w: World, saved: Termios, current: Termios, me: string, peerId: string, peerName: string)
    ensures var s := StepOnce(w, saved, current, me, peerId, peerName);
      Grows(w, s.world) && AllToPeer(Calls(Since(w, s.world)), peerId)
  {
    var (b, w1) := w.ReadByte();
    Same(w, w1);
    if b.None? {
      assert StepOnce(w, saved, current, me, peerId, peerName) == Done(ReadFailed, w1.Say(InputError).Restore(saved));
      Did2(w, w1.Say(InputError), w1.Say(InputError).Restore(saved), Say(InputError), RestoreTo(saved));
      Pair(Say(InputError), RestoreTo(saved));
    } else if b.value == CtrlR || b.value == CtrlS {
      var s := AfterKey(w1, b.value, saved, current, me, peerId, peerName);
      assert StepOnce(w, saved, current, me, peerId, peerName) == s;
      AfterKeyCalls(w1, b.value, saved, current, me, peerId, peerName);
      SinceChain(w, w1, s.world);
    } else if b.value == CtrlC {
      assert StepOnce(w, saved, current, me, peerId, peerName) == Done(Exited, w1.Say(Exiting).Exit(0));
      Did2(w, w1.Say(Exiting), w1.Say(Exiting).Exit(0), Say(Exiting), Exit(0));
      Pair(Say(Exiting), Exit(0));
    } else {
      assert StepOnce(w, saved, current, me, peerId, peerName) == Continue(w1, current);
    }
  }

  /**
   * A pass that ends the loop without a key action: at the end of input it
   * reports the error and the deferred restore applies `saved`; on Ctrl+C
   * it says so and exits with status 0, leaving the terminal as it was.
   */
  lemma StepEnds(w: World, saved: Termios, current: Termios, me: string, peerId: string, peerName: string)
    ensures var s := StepOnce(w, saved, current, me, peerId, peerName);
      s.Done? && s.end == ReadFailed ==>
        w.stdin == [] && Since(w, s.world) == [Say(InputError), RestoreTo(saved)] && s.world.device == saved
    ensures var s := StepOnce(w, saved, current, me, peerId, peerName);
      s.Done? && s.end == Exited ==>
        w.stdin[0] == CtrlC && Since(w, s.world) == [Say(Exiting), Exit(0)] && s.world.device == w.device
    ensures var s := StepOnce(w, saved, current, me, peerId, peerName);
      s.Done? && s.end == ReentryFailed ==> w.stdin != [] && (w.stdin[0] == CtrlR || w.stdin[0] == CtrlS)
  {
    var (b, w1) := w.ReadByte();
    if b.None? {
      assert StepOnce(w, saved, current, me, peerId, peerName) == Done(ReadFailed, w1.Say(InputError).Restore(saved));
      Did2(w, w1.Say(InputError), w1.Say(InputError).Restore(saved), Say(InputError), RestoreTo(saved));
    } else if b.value == CtrlR || b.value == CtrlS {
      assert StepOnce(w, saved, current, me, peerId, peerName) == AfterKey(w1, b.value, saved, current, me, peerId, peerName);
      AfterKeyGivesUp(w1, b.value, saved, current, me, peerId, peerName);
    } else if b.value == CtrlC {
      assert StepOnce(w, saved, current, me, peerId, peerName) == Done(Exited, w1.Say(Exiting).Exit(0));
      Did2(w, w1.Say(Exiting), w1.Say(Exiting).Exit(0), Say(Exiting), Exit(0));
    }
  }

  /**
   * A pass that ends because raw mode could not be entered again after a
   * key leaves the terminal at `saved`, restoring it last, and exits
   * nothing.
   */
  lemma StepGivesUp(w: World, saved: Termios, current: Termios, me: string, peerId: string, peerName: string)
    ensures var s := StepOnce(w, saved, current, me, peerId, peerName);
      s.Done? && s.end == ReentryFailed ==>
        Grows(w, s.world) && s.world.device == saved &&
        Since(w, s.world) != [] && Since(w, s.world)[|Since(w, s.world)| - 1] == RestoreTo(saved) &&
        Exits(Since(w, s.world)) == []
  {
    var (b, w1) := w.ReadByte();
    Same(w, w1);
    if b.Some? && (b.value == CtrlR || b.value == CtrlS) {
      var s := AfterKey(w1, b.value, saved, current, me, peerId, peerName);
      assert StepOnce(w, saved, current, me, peerId, peerName) == s;
      if s.Done? {
        AfterKeyGivesUp(w1, b.value, saved, current, me, peerId, peerName);
        AfterKeyGivesUpLast(w1, b.value, saved, current, me, peerId, peerName);
        SinceChain(w, w1, s.world);
        LastOfChain(w, w1, s.world);
      }
    }
  }

  /** Such a pass restores twice, `current` then `saved`, and enters raw mode not at all. */
  lemma StepGivesUpRestores(w: World, saved: Termios, current: Termios, me: string, peerId: string, peerName: string)
    ensures var s := StepOnce(w, saved, current, me, peerId, peerName);
      s.Done? && s.end == ReentryFailed ==>
        Grows(w, s.world) && Restores(Since(w, s.world)) == [current, saved] && EnterCount(Since(w, s.world)) == 0
  {
    var (b, w1) := w.ReadByte();
    Same(w, w1);
    if b.Some? && (b.value == CtrlR || b.value == CtrlS) {
      var s := AfterKey(w1, b.value, saved, current, me, peerId, peerName);
      assert StepOnce(w, saved, current, me, peerId, peerName) == s;
      if s.Done? {
        AfterKeyGivesUpRestores(w1, b.value, saved, current, me, peerId, peerName);
        SinceChain(w, w1, s.world);
      }
    }
  }

  /** The loop, run until it ends. */
  function Listen(w: World, saved: Termios, current: Termios, me: string, peerId: string, peerName: string): (res: (End, World))
    ensures Grows(w, res.1) && res.0 != SetupFailed
    decreases |w.stdin|
  {
    match StepOnce(w, saved, current, me, peerId, peerName)
    case Done(end, r) => (end, r)
    case Continue(w1, next) =>
      var res := Listen(w1, saved, next, me, peerId, peerName);
      SinceChain(w, w1, res.1);
      res
  }

  /**
   * How the loop ends when it returns (end of input, or a failed
   * re-entry), entered in raw mode over `current`: the last event is the
   * deferred restore, and the terminal is back at `saved`.
   */
  lemma {:induction false} ListenReturns(w: World, saved: Termios, current: Termios, me: string, peerId: string, peerName: string)
    requires w.device == RawSettings(current)
    ensures var res := Listen(w, saved, current, me, peerId, peerName);
      res.0 != Exited ==>
        res.1.device == saved && Since(w, res.1) != [] && Since(w, res.1)[|Since(w, res.1)| - 1] == RestoreTo(saved)
    decreases |w.stdin|
  {
    match StepOnce(w, saved, current, me, peerId, peerName)
    case Done(end, r) =>
      assert Listen(w, saved, current, me, peerId, peerName) == (end, r);
      if end == ReadFailed {
        StepEnds(w, saved, current, me, peerId, peerName);
      } else if end == ReentryFailed {
        StepGivesUp(w, saved, current, me, peerId, peerName);
      }
    case Continue(w1, next) =>
      var res := Listen(w1, saved, next, me, peerId, peerName);
      assert Listen(w, saved, current, me, peerId, peerName) == res;
      if res.0 != Exited {
        StepContinues(w, saved, current, me, peerId, peerName);
        ListenReturns(w1, saved, next, me, peerId, peerName);
        SinceChain(w, w1, res.1);
        LastOfChain(w, w1, res.1);
      }
  }

  /** Such a loop exits nothing. */
  lemma {:induction false} ListenReturnsQuietly(w: World, saved: Termios, current: Termios, me: string, peerId: string, peerName: string)
    requires w.device == RawSettings(current)
    ensures var res := Listen(w, saved, current, me, peerId, peerName);
      res.0 != Exited ==> Exits(Since(w, res.1)) == []
    decreases |w.stdin|
  {
    match StepOnce(w, saved, current, me, peerId, peerName)
    case Done(end, r) =>
      assert Listen(w, saved, current, me, peerId, peerName) == (end, r);
      if end == ReadFailed {
        StepEnds(w, saved, current, me, peerId, peerName);
        Pair(Say(InputError), RestoreTo(saved));
      } else if end == ReentryFailed {
        StepGivesUp(w, saved, current, me, peerId, peerName);
      }
    case Continue(w1, next) =>
      var res := Listen(w1, saved, next, me, peerId, peerName);
      assert Listen(w, saved, current, me, peerId, peerName) == res;
      if res.0 != Exited {
        StepContinues(w, saved, current, me, peerId, peerName);
        ListenReturnsQuietly(w1, saved, next, me, peerId, peerName);
        SinceChain(w, w1, res.1);
      }
  }


  /**
   * How the loop ends on Ctrl+C, entered in raw mode over `current`: the
   * last event is the exit with status 0, and the terminal is still raw,
   * since os.Exit skips the deferred restore.
   */
  lemma {:induction false} ListenExits(w: World, saved: Termios, current: Termios, me: string, peerId: string, peerName: string)
    requires w.device == RawSettings(current)
    ensures var res := Listen(w, saved, current, me, peerId, peerName);
      res.0 == Exited ==>
        res.1.device == RawSettings(current) && Since(w, res.1) != [] &&
        Since(w, res.1)[|Since(w, res.1)| - 1] == Exit(0)
    decreases |w.stdin|
  {
    match StepOnce(w, saved, current, me, peerId, peerName)
    case Done(end, r) =>
      assert Listen(w, saved, current, me, peerId, peerName) == (end, r);
      if end == Exited {
        StepEnds(w, saved, current, me, peerId, peerName);
      }
    case Continue(w1, next) =>
      var res := Listen(w1, saved, next, me, peerId, peerName);
      assert Listen(w, saved, current, me, peerId, peerName) == res;
      if res.0 == Exited {
        StepContinues(w, saved, current, me, peerId, peerName);
        ListenExits(w1, saved, next, me, peerId, peerName);
        LastOfChain(w, w1, res.1);
      }
  }

  /** On Ctrl+C that exit is the only one the loop performs. */
  lemma {:induction false} ListenExitsOnce(w: World, saved: Termios, current: Termios, me: string, peerId: string, peerName: string)
    requires w.device == RawSettings(current)
    ensures var res := Listen(w, saved, current, me, peerId, peerName);
      res.0 == Exited ==> Exits(Since(w, res.1)) == [0]
    decreases |w.stdin|
  {
    match StepOnce(w, saved, current, me, peerId, peerName)
    case Done(end, r) =>
      assert Listen(w, saved, current, me, peerId, peerName) == (end, r);
      if end == Exited {
        StepEnds(w, saved, current, me, peerId, peerName);
        Pair(Say(Exiting), Exit(0));
      }
    case Continue(w1, next) =>
      var res := Listen(w1, saved, next, me, peerId, peerName);
      assert Listen(w, saved, current, me, peerId, peerName) == res;
      if res.0 == Exited {
        StepContinues(w, saved, current, me, peerId, peerName);
        ListenExitsOnce(w1, saved, next, me, peerId, peerName);
        SinceChain(w, w1, res.1);
      }
  }

  /**
   * Restores against entries into raw mode within the loop: a read error
   * leaves one restore more than entries (the deferred one), a failed
   * re-entry two more, Ctrl+C as many.
   */
  lemma {:induction false} ListenBalance(w: World, saved: Termios, current: Termios, me: string, peerId: string, peerName: string)
    ensures var res := Listen(w, saved, current, me, peerId, peerName);
      Grows(w, res.1) &&
      |Restores(Since(w, res.1))| == EnterCount(Since(w, res.1)) +
        (match res.0 case ReadFailed => 1 case ReentryFailed => 2 case _ => 0)
    decreases |w.stdin|
  {
    match StepOnce(w, saved, current, me, peerId, peerName)
    case Done(end, r) =>
      assert Listen(w, saved, current, me, peerId, peerName) == (end, r);
      if end == Exited {
        StepEnds(w, saved, current, me, peerId, peerName);
        Pair(Say(Exiting), Exit(0));
      } else if end == ReadFailed {
        StepEnds(w, saved, current, me, peerId, peerName);
        Pair(Say(InputError), RestoreTo(saved));
      } else {
        StepGivesUpRestores(w, saved, current, me, peerId, peerName);
      }
    case Continue(w1, next) =>
      var r := Listen(w1, saved, next, me, peerId, peerName).1;
      assert Listen(w, saved, current, me, peerId, peerName).1 == r;
      StepContinuesRestores(w, saved, current, me, peerId, peerName);
      ListenBalance(w1, saved, next, me, peerId, peerName);
      SinceChain(w, w1, r);
  }

  /** A pass that ends the loop restores only `saved` and `current`. */
  lemma StepDoneRestores(w: World, saved: Termios, current: Termios, me: string, peerId: string, peerName: string)
    ensures var s := StepOnce(w, saved, current, me, peerId, peerName);
      s.Done? ==> Among(Restores(Since(w, s.world)), saved, current)
  {
    var s := StepOnce(w, saved, current, me, peerId, peerName);
    if s.Done? && s.end == Exited {
      StepEnds(w, saved, current, me, peerId, peerName);
      Pair(Say(Exiting), Exit(0));
    } else if s.Done? && s.end == ReadFailed {
      StepEnds(w, saved, current, me, peerId, peerName);
      Pair(Say(InputError), RestoreTo(saved));
      assert Among([saved], saved, current);
    } else if s.Done? {
      StepGivesUpRestores(w, saved, current, me, peerId, peerName);
      assert Among([saved], saved, current);
      assert [current, saved][1..] == [saved];
    }
  }

  /** Only `saved` and `current` are ever restored within the loop. */
  lemma {:induction false} ListenRestoresSnapshots(w: World, saved: Termios, current: Termios, me: string, peerId: string, peerName: string)
    ensures var res := Listen(w, saved, current, me, peerId, peerName);
      Grows(w, res.1) && Among(Restores(Since(w, res.1)), saved, current)
    decreases |w.stdin|
  {
    match StepOnce(w, saved, current, me, peerId, peerName)
    case Done(end, r) =>
      assert Listen(w, saved, current, me, peerId, peerName) == (end, r);
      StepDoneRestores(w, saved, current, me, peerId, peerName);
    case Continue(w1, next) =>
      var r := Listen(w1, saved, next, me, peerId, peerName).1;
      assert Listen(w, saved, current, me, peerId, peerName).1 == r;
      StepContinuesRestores(w, saved, current, me, peerId, peerName);
      assert next == current;
      assert Among([current], saved, current);
      ListenRestoresSnapshots(w1, saved, next, me, peerId, peerName);
      SinceChain(w, w1, r);
      AmongAppend(Restores(Since(w, w1)), Restores(Since(w1, r)), saved, current);
  }


  /** Every backend call the loop makes concerns the selected friend's conversation. */
  lemma {:induction false} ListenCallsToPeer(w: World, saved: Termios, current: Termios, me: string, peerId: string, peerName: string)
    ensures var res := Listen(w, saved, current, me, peerId, peerName);
      Grows(w, res.1) && AllToPeer(Calls(Since(w, res.1)), peerId)
    decreases |w.stdin|
  {
    StepCalls(w, saved, current, me, peerId, peerName);
    match StepOnce(w, saved, current, me, peerId, peerName)
    case Done(end, r) =>
      assert Listen(w, saved, current, me, peerId, peerName) == (end, r);
    case Continue(w1, next) =>
      var r := Listen(w1, saved, next, me, peerId, peerName).1;
      assert Listen(w, saved, current, me, peerId, peerName).1 == r;
      ListenCallsToPeer(w1, saved, next, me, peerId, peerName);
      SinceChain(w, w1, r);
      AllToPeerAppend(Calls(Since(w, w1)), Calls(Since(w1, r)), peerId);
  }

  /** waitForCtrlRInReceiveMessage: enter raw mode, or report and return; then the loop. */
  function Session(w: World, me: string, peerId: string, peerName: string): (res: (End, World))
    ensures Grows(w, res.1)
  {
    var (snap, w1) := w.MakeRaw();
    if snap.None? then (SetupFailed, w1.Say(RawModeError))
    else
      var res := Listen(w1, snap.value, snap.value, me, peerId, peerName);
      SinceChain(w, w1, res.1);
      res
  }

  /**
   * When raw mode cannot be entered the session reports it and returns
   * without reading input, calling the backend or restoring anything.
   */
  lemma SessionSetupFails(w: World, me: string, peerId: string, peerName: string)
    ensures var res := Session(w, me, peerId, peerName);
      (res.0 == SetupFailed <==> w.ttyFaults != [] && w.ttyFaults[0]) &&
      (res.0 == SetupFailed ==>
        res.1.stdin == w.stdin && res.1.device == w.device && Grows(w, res.1) &&
        Since(w, res.1) == [EnterRaw(false), Say(RawModeError)])
  {
    var (snap, w1) := w.MakeRaw();
    if snap.None? {
      assert Session(w, me, peerId, peerName) == (SetupFailed, w1.Say(RawModeError));
      Did2(w, w1, w1.Say(RawModeError), EnterRaw(false), Say(RawModeError));
    }
  }

  /**
   * A session that entered raw mode and returns (end of input, or a failed
   * re-entry) leaves the terminal exactly as it was before the session,
   * the deferred restore being the last thing done, and does not exit.
   */
  lemma SessionReturns(w: World, me: string, peerId: string, peerName: string)
    ensures var res := Session(w, me, peerId, peerName);
      var t := Since(w, res.1);
      res.0 == ReadFailed || res.0 == ReentryFailed ==>
        res.1.device == w.device && t[|t| - 1] == RestoreTo(w.device) && Exits(t) == []
  {
    var (snap, w1) := w.MakeRaw();
    if snap.None? {
      assert Session(w, me, peerId, peerName) == (SetupFailed, w1.Say(RawModeError));
    } else {
      var res := Listen(w1, snap.value, snap.value, me, peerId, peerName);
      assert Session(w, me, peerId, peerName) == res;
      if res.0 == ReadFailed || res.0 == ReentryFailed {
        Did(w, w1, EnterRaw(true));
        Single(EnterRaw(true));
        ListenReturns(w1, snap.value, snap.value, me, peerId, peerName);
        ListenReturnsQuietly(w1, snap.value, snap.value, me, peerId, peerName);
        SinceChain(w, w1, res.1);
        LastOfChain(w, w1, res.1);
      }
    }
  }

  /**
   * Ctrl+C exits with status 0, once, as the last thing done, and leaves
   * the terminal in raw mode: os.Exit does not run deferred calls.
   */
  lemma SessionExits(w: World, me: string, peerId: string, peerName: string)
    ensures var res := Session(w, me, peerId, peerName);
      var t := Since(w, res.1);
      res.0 == Exited ==>
        res.1.device == RawSettings(w.device) && t[|t| - 1] == Exit(0) && Exits(t) == [0]
  {
    var (snap, w1) := w.MakeRaw();
    if snap.None? {
      assert Session(w, me, peerId, peerName) == (SetupFailed, w1.Say(RawModeError));
    } else {
      var res := Listen(w1, snap.value, snap.value, me, peerId, peerName);
      assert Session(w, me, peerId, peerName) == res;
      if res.0 == Exited {
        Did(w, w1, EnterRaw(true));
        Single(EnterRaw(true));
        ListenExits(w1, snap.value, snap.value, me, peerId, peerName);
        ListenExitsOnce(w1, snap.value, snap.value, me, peerId, peerName);
        SinceChain(w, w1, res.1);
        LastOfChain(w, w1, res.1);
      }
    }
  }

  /**
   * Over a whole session restores balance entries into raw mode according
   * to how it ends: as many after a read error, one more after a failed
   * re-entry (the loop's own restore and the deferred one), one fewer on
   * Ctrl+C.
   */
  lemma SessionBalance(w: World, me: string, peerId: string, peerName: string)
    ensures var res := Session(w, me, peerId, peerName);
      var t := Since(w, res.1);
      Grows(w, res.1) &&
      (res.0 == SetupFailed ==> Restores(t) == [] && EnterCount(t) == 0) &&
      (res.0 == ReadFailed ==> |Restores(t)| == EnterCount(t)) &&
      (res.0 == ReentryFailed ==> |Restores(t)| == EnterCount(t) + 1) &&
      (res.0 == Exited ==> |Restores(t)| + 1 == EnterCount(t))
  {
    var (snap, w1) := w.MakeRaw();
    if snap.None? {
      assert Session(w, me, peerId, peerName) == (SetupFailed, w1.Say(RawModeError));
      Did2(w, w1, w1.Say(RawModeError), EnterRaw(false), Say(RawModeError));
      Pair(EnterRaw(false), Say(RawModeError));
    } else {
      var r := Listen(w1, snap.value, snap.value, me, peerId, peerName).1;
      assert Session(w, me, peerId, peerName) == Listen(w1, snap.value, snap.value, me, peerId, peerName);
      ListenBalance(w1, snap.value, snap.value, me, peerId, peerName);
      Did(w, w1, EnterRaw(true));
      Single(EnterRaw(true));
      SinceChain(w, w1, r);
    }
  }

  /** Every restore of a session applies the settings found on entry. */
  lemma SessionRestoresEntrySettings(w: World, me: string, peerId: string, peerName: string)
    ensures var res := Session(w, me, peerId, peerName);
      Grows(w, res.1) && forall x | x in Restores(Since(w, res.1)) :: x == w.device
  {
    var (snap, w1) := w.MakeRaw();
    if snap.None? {
      assert Session(w, me, peerId, peerName) == (SetupFailed, w1.Say(RawModeError));
      Did2(w, w1, w1.Say(RawModeError), EnterRaw(false), Say(RawModeError));
      Pair(EnterRaw(false), Say(RawModeError));
    } else {
      var r := Listen(w1, snap.value, snap.value, me, peerId, peerName).1;
      assert Session(w, me, peerId, peerName) == Listen(w1, snap.value, snap.value, me, peerId, peerName);
      ListenRestoresSnapshots(w1, snap.value, snap.value, me, peerId, peerName);
      Did(w, w1, EnterRaw(true));
      Single(EnterRaw(true));
      SinceChain(w, w1, r);
      AmongExactly(Restores(Since(w1, r)), w.device, w.device);
    }
  }

  /** Every call a session makes is a fetch of, or a send to, the selected friend. */
  lemma SessionCallsToPeer(w: World, me: string, peerId: string, peerName: string)
    ensures var res := Session(w, me, peerId, peerName);
      Grows(w, res.1) && AllToPeer(Calls(Since(w, res.1)), peerId)
  {
    var (snap, w1) := w.MakeRaw();
    if snap.None? {
      assert Session(w, me, peerId, peerName) == (SetupFailed, w1.Say(RawModeError));
      Did2(w, w1, w1.Say(RawModeError), EnterRaw(false), Say(RawModeError));
      Pair(EnterRaw(false), Say(RawModeError));
    } else {
      var r := Listen(w1, snap.value, snap.value, me, peerId, peerName).1;
      assert Session(w, me, peerId, peerName) == Listen(w1, snap.value, snap.value, me, peerId, peerName);
      ListenCallsToPeer(w1, snap.value, snap.value, me, peerId, peerName);
      Did(w, w1, EnterRaw(true));
      Single(EnterRaw(true));
      SinceChain(w, w1, r);
      assert Calls(Since(w, r)) == Calls(Since(w1, r));
    }
  }

  /** Bytes other than 3, 18 and 19 are read and ignored: nothing else happens. */
  lemma {:induction false} SkipsUnrecognised(w: World, n: nat, saved: Termios, current: Termios, me: string, peerId: string, peerName: string)
    requires n <= |w.stdin| && forall i :: 0 <= i < n ==> !Recognised(w.stdin[i])
    ensures Listen(w, saved, current, me, peerId, peerName) ==
            Listen(w.(stdin := w.stdin[n..]), saved, current, me, peerId, peerName)
    decreases n
  {
    if n > 0 {
      var w1 := w.(stdin := w.stdin[1..]);
      assert StepOnce(w, saved, current, me, peerId, peerName) == Continue(w1, current);
      SkipsUnrecognised(w1, n - 1, saved, current, me, peerId, peerName);
      assert w1.stdin[n - 1..] == w.stdin[n..];
    }
  }

  /**
   * Input with no recognised byte is read to its end; then the read error
   * is reported and the terminal restored, with no call made.
   */
  lemma OnlyUnrecognisedInput(w: World, me: string, peerId: string, peerName: string)
    requires !(w.ttyFaults != [] && w.ttyFaults[0])
    requires forall i :: 0 <= i < |w.stdin| ==> !Recognised(w.stdin[i])
    ensures var res := Session(w, me, peerId, peerName);
      res.0 == ReadFailed && res.1.stdin == [] && res.1.device == w.device &&
      Since(w, res.1) == [EnterRaw(true), Say(InputError), RestoreTo(w.device)]
  {
    var (snap, w1) := w.MakeRaw();
    SkipsUnrecognised(w1, |w1.stdin|, w.device, w.device, me, peerId, peerName);
    var w2 := w1.(stdin := []);
    assert w1.stdin[|w1.stdin|..] == [];
    assert Listen(w2, w.device, w.device, me, peerId, peerName) == (ReadFailed, w2.Say(InputError).Restore(w.device));
  }

  /**
   * When Ctrl+C is the first recognised byte, the session says it is
   * exiting and exits with status 0: no call, no restore, the terminal
   * left raw, and nothing after the Ctrl+C read.
   */
  lemma CtrlCFirstExits(w: World, junk: seq<char>, rest: seq<char>, me: string, peerId: string, peerName: string)
    requires !(w.ttyFaults != [] && w.ttyFaults[0])
    requires w.stdin == junk + [CtrlC] + rest && forall i :: 0 <= i < |junk| ==> !Recognised(junk[i])
    ensures var res := Session(w, me, peerId, peerName);
      res.0 == Exited && res.1.stdin == rest && res.1.device == RawSettings(w.device) &&
      Since(w, res.1) == [EnterRaw(true), Say(Exiting), Exit(0)]
  {
    var (snap, w1) := w.MakeRaw();
    SkipsUnrecognised(w1, |junk|, w.device, w.device, me, peerId, peerName);
    var w2 := w1.(stdin := w1.stdin[|junk|..]);
    assert w2.stdin == [CtrlC] + rest;
    assert StepOnce(w2, w.device, w.device, me, peerId, peerName) == Done(Exited, w2.(stdin := rest).Say(Exiting).Exit(0));
  }

  /**
   * Ctrl+R: restore `current`, fetch the conversation once (the only
   * call), whose failure is reported but does not end the loop.
   */
  lemma CtrlRRefreshes(w: World, saved: Termios, current: Termios, me: string, peerId: string, peerName: string)
    requires w.stdin != [] && w.stdin[0] == CtrlR
    ensures var s := StepOnce(w, saved, current, me, peerId, peerName);
      var t := Since(w, s.world);
      Grows(w, s.world) && |t| >= 3 &&
      t[0] == RestoreTo(current) && t[1] == Call(Request.FetchConversation(peerId)) &&
      Calls(t) == [Request.FetchConversation(peerId)]
  {
    var w1 := w.(stdin := w.stdin[1..]);
    var w0 := w1.Restore(current);
    var w2 := Refresh(w0, me, peerId, peerName);
    var (snap, w3) := w2.MakeRaw();
    assert Since(w0, w2)[0] == Call(Request.FetchConversation(peerId)) by {
      var (ok, f) := Fetch(w0, me, peerId, peerName);
      assert f.trace == w0.trace + [Call(Request.FetchConversation(peerId))] + Since(w0.Call(Request.FetchConversation(peerId)).1, f);
    }
    Bracket(w, w0, w2, w3, [RestoreTo(current)], [EnterRaw(snap.Some?)]);
    if snap.None? {
      GiveUpTail(w3, saved);
      SinceChain(w, w3, w3.Say(RawModeError).Restore(saved));
    }
  }

  /**
   * Ctrl+S: restore `current`, then handleSendMessage once, with at most a
   * send to the peer and a fetch of the conversation; its error is reported
   * but does not end the loop.
   */
  lemma CtrlSSends(w: World, saved: Termios, current: Termios, me: string, peerId: string, peerName: string)
    requires w.stdin != [] && w.stdin[0] == CtrlS
    ensures var s := StepOnce(w, saved, current, me, peerId, peerName);
      var t := Since(w, s.world);
      Grows(w, s.world) && |t| >= 2 && t[0] == RestoreTo(current) &&
      |Calls(t)| <= 2 && AllToPeer(Calls(t), peerId)
  {
    var w1 := w.(stdin := w.stdin[1..]);
    var s := AfterKey(w1, CtrlS, saved, current, me, peerId, peerName);
    assert StepOnce(w, saved, current, me, peerId, peerName) == s;
    Same(w, w1);
    AfterKeyOpens(w1, CtrlS, saved, current, me, peerId, peerName);
    AfterKeyCalls(w1, CtrlS, saved, current, me, peerId, peerName);
    assert Since(w, s.world) == Since(w1, s.world);
  }

  /**
   * After Ctrl+R or Ctrl+S the loop goes on exactly when raw mode is
   * entered again, which is then the last thing done.
   */
  lemma KeyThenReenters(w: World, saved: Termios, current: Termios, me: string, peerId: string, peerName: string)
    requires w.stdin != [] && (w.stdin[0] == CtrlR || w.stdin[0] == CtrlS)
    ensures StepOnce(w, saved, current, me, peerId, peerName).Continue? <==> !(w.ttyFaults != [] && w.ttyFaults[0])
    ensures var s := StepOnce(w, saved, current, me, peerId, peerName);
      s.Continue? ==> Since(w, s.world) != [] && Since(w, s.world)[|Since(w, s.world)| - 1] == EnterRaw(true)
  {
    var key := w.stdin[0];
    var w1 := w.(stdin := w.stdin[1..]);
    assert StepOnce(w, saved, current, me, peerId, peerName) == AfterKey(w1, key, saved, current, me, peerId, peerName);
    var w0 := w1.Restore(current);
    var w2 := KeyAction(w0, key, me, peerId, peerName);
    var (snap, w3) := w2.MakeRaw();
    if snap.Some? {
      assert AfterKey(w1, key, saved, current, me, peerId, peerName) == Continue(w3, snap.value);
      Did(w1, w0, RestoreTo(current));
      SinceChain(w1, w0, w2);
      Extended(w1, w2, w3, [EnterRaw(true)]);
    } else {
      assert AfterKey(w1, key, saved, current, me, peerId, peerName) == Done(ReentryFailed, w3.Say(RawModeError).Restore(saved));
    }
  }

  /**
   * When that re-entry fails the failed attempt is followed only by the
   * report and the deferred restore.
   */
  lemma KeyReentryFails(w: World, saved: Termios, current: Termios, me: string, peerId: string, peerName: string)
    requires w.stdin != [] && (w.stdin[0] == CtrlR || w.stdin[0] == CtrlS)
    ensures var s := StepOnce(w, saved, current, me, peerId, peerName);
      s.Done? ==> |Since(w, s.world)| >= 3 && Since(w, s.world)[|Since(w, s.world)| - 3] == EnterRaw(false)
  {
    var key := w.stdin[0];
    var w1 := w.(stdin := w.stdin[1..]);
    assert StepOnce(w, saved, current, me, peerId, peerName) == AfterKey(w1, key, saved, current, me, peerId, peerName);
    var w0 := w1.Restore(current);
    var w2 := KeyAction(w0, key, me, peerId, peerName);
    var (snap, w3) := w2.MakeRaw();
    if snap.None? {
      var r := w3.Say(RawModeError).Restore(saved);
      assert AfterKey(w1, key, saved, current, me, peerId, peerName) == Done(ReentryFailed, r);
      Did(w1, w0, RestoreTo(current));
      SinceChain(w1, w0, w2);
      Extended(w1, w2, w3, [EnterRaw(false)]);
      Did2(w3, w3.Say(RawModeError), r, Say(RawModeError), RestoreTo(saved));
      SinceChain(w1, w3, r);
      assert Since(w1, r)[|Since(w1, r)| - 3] == Since(w1, w3)[|Since(w1, w3)| - 1];
    } else {
      assert AfterKey(w1, key, saved, current, me, peerId, peerName) == Continue(w3, snap.value);
    }
  }



  method RefreshConversation(con: Console, me: string, peerId: string, peerName: string)
    modifies con
    ensures con.State() == KeyAction(old(con.State()), CtrlR, me, peerId, peerName)
  {
    var ok := RunFetch(con, me, peerId, peerName);
    if !ok {
      con.Say(RefreshFailed);
    }
  }

  method SendFromLoop(con: Console, me: string, peerId: string, peerName: string)
    modifies con
    ensures con.State() == KeyAction(old(con.State()), CtrlS, me, peerId, peerName)
  {
    var out := HandleSendMessage(con, me, peerId, peerName);
    if out.Failed() {
      con.Say(SendFailed);
    }
  }

  method WaitForKeys(con: Console, me: string, peerId: string, peerName: string) returns (end: End)
    modifies con
    ensures (end, con.State()) == Session(old(con.State()), me, peerId, peerName)
  {
    var snap := con.MakeRaw();
    if snap.None? {
      con.Say(RawModeError);
      return SetupFailed;
    }
    var saved := snap.value;  // what the deferred restore will apply
    var oldState := saved;
    while true
      invariant Listen(con.State(), saved, oldState, me, peerId, peerName) == Session(old(con.State()), me, peerId, peerName)
      decreases |con.stdin|
    {
      ghost var before := con.State();
      var b := con.ReadByte();
      if b.None? {
        con.Say(InputError);
        con.Restore(saved);
        return ReadFailed;
      }
      if b.value == CtrlR {
        con.Restore(oldState);
        RefreshConversation(con, me, peerId, peerName);
        var again := con.MakeRaw();
        if again.None? {
          con.Say(RawModeError);
          con.Restore(saved);
          return ReentryFailed;
        }
        oldState := again.value;
      }
      if b.value == CtrlS {
        con.Restore(oldState);
        SendFromLoop(con, me, peerId, peerName);
        var again := con.MakeRaw();
        if again.None? {
          con.Say(RawModeError);
          con.Restore(saved);
          return ReentryFailed;
        }
        oldState := again.value;
      }
      if b.value == CtrlC {
        con.Say(Exiting);
        con.Exit(0);
        return Exited;
      }
      assert StepOnce(before, saved, oldState, me, peerId, peerName) == Continue(con.State(), oldState) by {
        assert b.value == CtrlR || b.value == CtrlS || !Recognised(b.value);
      }
    }
  }
}
