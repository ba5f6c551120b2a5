/**
 * The process's view of its surroundings: the terminal device's settings,
 * standard input, the backend, and everything the process does to them.
 *
 * `World` is the value the specifications speak about; each member is one
 * primitive the client uses (makeRaw's ioctl pair, restore's ioctl, a 1-byte
 * read, bufio's ReadString('\n'), fmt.Scanln, one HTTP round trip, a printed
 * line, os.Exit). `Console` holds the same state in fields that its methods
 * update in place, and each method is proved to do what the matching
 * `World` member describes.
 */
module Console {
  import opened Wrappers
  import opened Terminal
  import opened Types
  import Text

  /** A call to the backend. */
  datatype Request =
    | FetchConversation(peerId: string)
    | SendMessage(recipientId: string, text: string)
    | RespondToRequest(username: string, action: string)
    | SearchUser(query: string)
    | SendFriendRequest(username: string)
    | FetchRequests(incoming: bool)
    | Register(username: string, password: string)

  /**
   * The fields of a decoded response body that any caller reads; Go's JSON
   * decoder leaves absent fields at their zero values.
   */
  datatype Payload = Payload(
    messages: seq<Message>,
    userId: string,
    username: string,
    requestId: int,
    timestamp: string,
    requests: seq<FriendRequest>)

  /** The outcome of one HTTP round trip. */
  datatype Reply =
    | Unreachable                                   // building, sending or reading the request failed
    | Response(status: int, body: Option<Payload>)  // body None: not decodable JSON

  /** The kinds of line the client prints, as far as its decisions show in them. */
  datatype Notice =
    | RawModeError | InputError | Exiting | ListingFailed | NoFriends | SelectionFailed | FetchFailed
    | RefreshFailed | SendFailed | EmptyMessage | MessageSent | NoMessages
    | NoRespondable | InvalidRequestNumber | InvalidChoice | RespondFailed | Responded
    | Goodbye | EnterUsername | SearchFailed | UserFound(username: string) | NotSent
    | RequestFailed | RequestSent(showsRequestId: bool, showsTimestamp: bool)
    | Usage | MenuFailed | HandlerFailed | EmptyUsername | AlreadyFriend | FriendAdded
    | PasswordMask(mask: string) | SignupFailed | Registered
    | CommandList | UnknownCommand(command: string) | CommandFailed(heading: string) | CommandDone(line: string)

  /** How displayConversation labels a message. */
  datatype Label = You | Peer(name: string)
  datatype ReadState = Delivered | Read | Unread
  datatype Entry = Entry(author: Label, status: ReadState, messageId: int, text: string)

  datatype Event =
    | EnterRaw(applied: bool)       // one makeRaw call; false: an ioctl failed and nothing changed
    | RestoreTo(settings: Termios)  // one restore call
    | Call(request: Request)        // one HTTP round trip
    | Say(notice: Notice)           // one printed notice
    | Show(entries: seq<Entry>)     // the message list of one conversation display
    | Offer(requests: seq<FriendRequest>)  // the numbered list of respondable requests
    | List(requests: seq<FriendRequest>)   // a fetched list of incoming or outgoing requests
    | Exit(code: int)               // os.Exit

  function Tail<T>(s: seq<T>): seq<T> {
    if s == [] then [] else s[1..]
  }

  /** The index of the first newline of `s`, or |s| when there is none. */
  function LineLength(s: seq<char>): (n: nat)
    ensures n <= |s|
    ensures forall i :: 0 <= i < n ==> s[i] != '\n'
    ensures n < |s| ==> s[n] == '\n'
  {
    if s == [] || s[0] == '\n' then 0 else 1 + LineLength(s[1..])
  }

  /** The first white-space-separated field of a line. */
  function FirstField(line: string): (f: string)
    ensures forall i :: 0 <= i < |f| ==> !Text.IsSpace(f[i])
    ensures f != [] ==> line != []
  {
    var rest := Text.DropLeadingSpace(line);
    rest[..FieldLength(rest)]
  }

  function FieldLength(s: string): (n: nat)
    ensures n <= |s| && forall i :: 0 <= i < n ==> !Text.IsSpace(s[i])
  {
    if s == [] || Text.IsSpace(s[0]) then 0 else 1 + FieldLength(s[1..])
  }

  datatype World = World(
    device: Termios,         // the terminal's current settings
    stdin: seq<char>,        // input not yet read; a read at its end fails (io.EOF)
    ttyFaults: seq<bool>,    // for each makeRaw call in turn: does an ioctl fail? (none left: no)
    replies: seq<Reply>,     // the backend's answer to each call in turn (none left: Unreachable)
    trace: seq<Event>)       // what the process has done so far
  {
    /**
     * makeRaw: read the settings, apply raw mode, and hand back the settings
     * read. When either ioctl fails the device is left as it was.
     */
    function MakeRaw(): (res: (Option<Termios>, World))
      ensures res.0.Some? <==> !(ttyFaults != [] && ttyFaults[0])
      ensures res.0.Some? ==> res.0.value == device && res.1.device == RawSettings(device)
      ensures res.0.None? ==> res.1.device == device
      ensures res.1.stdin == stdin && res.1.replies == replies && res.1.ttyFaults == Tail(ttyFaults)
      ensures res.1.trace == trace + [Event.EnterRaw(res.0.Some?)]
    {
      var w := this.(ttyFaults := Tail(ttyFaults));
      if ttyFaults != [] && ttyFaults[0] then (None, w.(trace := trace + [Event.EnterRaw(false)]))
      else (Some(device), w.(device := RawSettings(device), trace := trace + [Event.EnterRaw(true)]))
    }

    /** restore: apply saved settings. */
    function Restore(saved: Termios): World {
      this.(device := saved, trace := trace + [Event.RestoreTo(saved)])
    }

    /** os.Stdin.Read into a 1-byte buffer. */
    function ReadByte(): (res: (Option<char>, World))
      ensures res.0.None? <==> stdin == []
      ensures res.0.Some? ==> res.0.value == stdin[0] && res.1 == this.(stdin := stdin[1..])
      ensures res.0.None? ==> res.1 == this
    {
      if stdin == [] then (None, this) else (Some(stdin[0]), this.(stdin := stdin[1..]))
    }

    /**
     * bufio.Reader.ReadString('\n'): the input through the first newline;
     * without a newline the rest of the input is consumed and an error returned.
     */
    function ReadLine(): (res: (Option<string>, World))
      ensures res.1 == this.(stdin := res.1.stdin)
      ensures |res.1.stdin| < |stdin| || (stdin == [] && res.0.None?)
      ensures res.0.Some? ==> stdin == res.0.value + res.1.stdin
      ensures res.0.Some? ==> res.0.value != [] && res.0.value[|res.0.value| - 1] == '\n'
      ensures res.0.None? ==> res.1.stdin == []
    {
      var n := LineLength(stdin);
      if n < |stdin| then
        assert stdin == stdin[..n + 1] + stdin[n + 1..];
        (Some(stdin[..n + 1]), this.(stdin := stdin[n + 1..]))
      else (None, this.(stdin := []))
    }

    /**
     * fmt.Scanln into one string: the first field of the next line, the
     * whole line being consumed; at the end of input the string stays empty.
     */
    function ScanToken(): (res: (string, World))
      ensures res.1 == this.(stdin := res.1.stdin)
      ensures |res.1.stdin| < |stdin| || (stdin == [] && res.0 == "")
    {
      var n := LineLength(stdin);
      var line := stdin[..n];
      (FirstField(line), this.(stdin := if n < |stdin| then stdin[n + 1..] else []))
    }

    /**
     * term.ReadPassword: the input up to the first newline, which is
     * consumed but not returned; at the end of input what was typed is
     * returned, and an error only when nothing was.
     */
    function ReadPassword(): (res: (Option<string>, World))
      ensures res.1 == this.(stdin := res.1.stdin)
      ensures res.0.None? <==> stdin == []
      ensures res.0.Some? ==> |res.1.stdin| < |stdin| && forall i :: 0 <= i < |res.0.value| ==> res.0.value[i] != '\n'
    {
      var n := LineLength(stdin);
      if stdin == [] then (None, this)
      else (Some(stdin[..n]), this.(stdin := if n < |stdin| then stdin[n + 1..] else []))
    }

    /** One HTTP round trip: the request is recorded and the next scripted reply consumed. */
    function Call(request: Request): (res: (Reply, World))
      ensures res.0 == (if replies == [] then Unreachable else replies[0])
      ensures res.1 == this.(replies := Tail(replies), trace := trace + [Event.Call(request)])
    {
      (if replies == [] then Unreachable else replies[0],
       this.(replies := Tail(replies), trace := trace + [Event.Call(request)]))
    }

    function Say(n: Notice): World {
      this.(trace := trace + [Event.Say(n)])
    }

    function Show(entries: seq<Entry>): World {
      this.(trace := trace + [Event.Show(entries)])
    }

    function Offer(requests: seq<FriendRequest>): World {
      this.(trace := trace + [Event.Offer(requests)])
    }

    function List(requests: seq<FriendRequest>): World {
      this.(trace := trace + [Event.List(requests)])
    }

    function Exit(code: int): World {
      this.(trace := trace + [Event.Exit(code)])
    }
  }

  /** The reply the next call receives. */
  function NextReply(w: World): Reply {
    if w.replies == [] then Unreachable else w.replies[0]
  }

  /** Reading the settings back after restoring them gives the record makeRaw captured. */
  lemma RestoreUndoesMakeRaw(w: World)
    requires w.MakeRaw().0.Some?
    ensures w.MakeRaw().1.Restore(w.MakeRaw().0.value).device == w.device
    ensures w.MakeRaw().1.device != w.device <==> !IsRaw(w.device)
  {
    RawSettingsFixedExactlyWhenRaw(w.device);
  }

  // ---------------------------------------------------------------------
  // Reading a trace

  /** `r` is `w` later on: its trace extends `w`'s. */
  ghost predicate Grows(w: World, r: World) {
    |w.trace| <= |r.trace| && r.trace[..|w.trace|] == w.trace
  }

  /** The events of `r` that happened after `w`. */
  ghost function Since(w: World, r: World): seq<Event>
    requires Grows(w, r)
  {
    r.trace[|w.trace|..]
  }

  lemma SinceChain(a: World, b: World, c: World)
    requires Grows(a, b) && Grows(b, c)
    ensures Grows(a, c) && Since(a, c) == Since(a, b) + Since(b, c)
    ensures Calls(Since(a, c)) == Calls(Since(a, b)) + Calls(Since(b, c))
    ensures EnterCount(Since(a, c)) == EnterCount(Since(a, b)) + EnterCount(Since(b, c))
    ensures Restores(Since(a, c)) == Restores(Since(a, b)) + Restores(Since(b, c))
    ensures Exits(Since(a, c)) == Exits(Since(a, b)) + Exits(Since(b, c))
  {
    assert c.trace[..|b.trace|][..|a.trace|] == c.trace[..|a.trace|];
    assert Since(a, c) == Since(a, b) + Since(b, c);
    TraceAppend(Since(a, b), Since(b, c));
  }

  /** `r` is `w` with nothing done in between. */
  lemma Same(w: World, r: World)
    requires r.trace == w.trace
    ensures Grows(w, r) && Since(w, r) == []
  {
    assert r.trace[..|w.trace|] == w.trace;
  }

  /** `r` is `w` after one event. */
  lemma Did(w: World, r: World, e: Event)
    requires r.trace == w.trace + [e]
    ensures Grows(w, r) && Since(w, r) == [e]
  {
    assert r.trace[..|w.trace|] == w.trace;
  }

  /** `r` is `w` after two events, the first leading to `m`. */
  lemma Did2(w: World, m: World, r: World, e1: Event, e2: Event)
    requires m.trace == w.trace + [e1] && r.trace == m.trace + [e2]
    ensures Grows(w, r) && Since(w, r) == [e1, e2]
  {
    assert r.trace == w.trace + [e1, e2];
    assert r.trace[..|w.trace|] == w.trace;
  }

  /** An event that neither touches the terminal nor exits. */
  predicate QuietEvent(e: Event) {
    !e.EnterRaw? && !e.RestoreTo? && !e.Exit?
  }

  /** `r` is `w` after one quiet event. */
  lemma Quietly(w: World, r: World, e: Event)
    requires r.trace == w.trace + [e] && QuietEvent(e)
    ensures Grows(w, r) && Since(w, r) == [e] && Quiet(Since(w, r))
    ensures Calls(Since(w, r)) == if e.Call? then [e.request] else []
  {
    assert r.trace[..|w.trace|] == w.trace;
    assert [e][1..] == [];
  }

  /** `r` is `w` after two quiet events, the first leading to `m`. */
  lemma Quietly2(w: World, m: World, r: World, e1: Event, e2: Event)
    requires m.trace == w.trace + [e1] && r.trace == m.trace + [e2] && QuietEvent(e1) && QuietEvent(e2)
    ensures Grows(w, r) && Since(w, r) == [e1, e2] && Quiet(Since(w, r))
    ensures Calls(Since(w, r)) == (if e1.Call? then [e1.request] else []) + (if e2.Call? then [e2.request] else [])
  {
    assert r.trace == w.trace + [e1, e2];
    assert r.trace[..|w.trace|] == w.trace;
    assert [e1, e2][1..] == [e2] && [e2][1..] == [];
    assert Calls([e2]) == if e2.Call? then [e2.request] else [];
    assert Quiet([e2]);
  }

  /** What happened last between `a` and `c` happened after `b` when anything did. */
  lemma LastOfChain(a: World, b: World, c: World)
    requires Grows(a, b) && Grows(b, c) && Grows(a, c) && Since(b, c) != []
    ensures Since(a, c) != [] && Since(a, c)[|Since(a, c)| - 1] == Since(b, c)[|Since(b, c)| - 1]
  {
  }

  /** Events recorded straight after a stretch extend it. */
  lemma Extended(a: World, b: World, c: World, es: seq<Event>)
    requires Grows(a, b) && c.trace == b.trace + es
    ensures Grows(a, c) && Since(a, c) == Since(a, b) + es
  {
    assert c.trace[..|a.trace|] == b.trace[..|a.trace|];
  }

  /** A stretch that exits nothing, followed by one that ends with `e` and exits nothing. */
  lemma EndsQuietlyWith(a: World, b: World, c: World, e: Event)
    requires Grows(a, b) && Grows(b, c) && Exits(Since(a, b)) == []
    requires Since(b, c) != [] && Since(b, c)[|Since(b, c)| - 1] == e && Exits(Since(b, c)) == []
    ensures Grows(a, c) && Since(a, c) != [] && Since(a, c)[|Since(a, c)| - 1] == e && Exits(Since(a, c)) == []
  {
    SinceChain(a, b, c);
    LastOfChain(a, b, c);
  }

  /**
   * From `w` to `r` the backend calls were `calls`, and either nothing
   * exited (`ok`) or the last event was exit status 1, the only exit.
   */
  ghost predicate Finished(w: World, r: World, ok: bool, calls: seq<Request>) {
    Grows(w, r) && Calls(Since(w, r)) == calls && Exits(Since(w, r)) == (if ok then [] else [1]) &&
    (!ok ==> Since(w, r) != [] && Since(w, r)[|Since(w, r)| - 1] == Exit(1))
  }

  /** A stretch without an exit, followed by one that finishes, finishes alike. */
  lemma FinishedAfter(a: World, b: World, c: World, ok: bool, before: seq<Request>, after: seq<Request>)
    requires Grows(a, b) && Exits(Since(a, b)) == [] && Calls(Since(a, b)) == before
    requires Finished(b, c, ok, after)
    ensures Finished(a, c, ok, before + after)
  {
    SinceChain(a, b, c);
    if !ok {
      LastOfChain(a, b, c);
    }
  }

  /** A report followed by exit status 1. */
  lemma FailWith(w: World, n: Notice)
    ensures Finished(w, w.Say(n).Exit(1), false, [])
    ensures Since(w, w.Say(n).Exit(1)) == [Say(n), Exit(1)]
  {
    Did2(w, w.Say(n), w.Say(n).Exit(1), Say(n), Exit(1));
    Pair(Say(n), Exit(1));
  }

  /** A report, and the process goes on. */
  lemma GoOnWith(w: World, n: Notice)
    ensures Finished(w, w.Say(n), true, [])
    ensures Since(w, w.Say(n)) == [Say(n)]
  {
    Did(w, w.Say(n), Say(n));
    Single(Say(n));
  }

  /** One backend call. */
  lemma Called(w: World, request: Request)
    ensures Grows(w, w.Call(request).1) && Since(w, w.Call(request).1) == [Call(request)]
    ensures Calls(Since(w, w.Call(request).1)) == [request] && Exits(Since(w, w.Call(request).1)) == []
  {
    Did(w, w.Call(request).1, Call(request));
    Single(Call(request));
  }

  /**
   * A segment with known events before and after it: `pre`, then whatever
   * happened from `b` to `c`, then `post`.
   */
  lemma Bracket(a: World, b: World, c: World, d: World, pre: seq<Event>, post: seq<Event>)
    requires b.trace == a.trace + pre && Grows(b, c) && d.trace == c.trace + post
    ensures Grows(a, d) && Since(a, d) == pre + Since(b, c) + post
    ensures Calls(Since(a, d)) == Calls(pre) + Calls(Since(b, c)) + Calls(post)
    ensures EnterCount(Since(a, d)) == EnterCount(pre) + EnterCount(Since(b, c)) + EnterCount(post)
    ensures Restores(Since(a, d)) == Restores(pre) + Restores(Since(b, c)) + Restores(post)
    ensures Exits(Since(a, d)) == Exits(pre) + Exits(Since(b, c)) + Exits(post)
  {
    assert c.trace == b.trace + Since(b, c);
    assert d.trace == a.trace + (pre + Since(b, c) + post);
    TraceAppend(pre, Since(b, c));
    TraceAppend(pre + Since(b, c), post);
  }

  /** The backend calls of a trace, in order. */
  function Calls(t: seq<Event>): seq<Request> {
    if t == [] then []
    else (if t[0].Call? then [t[0].request] else []) + Calls(t[1..])
  }

  function EnterCount(t: seq<Event>): nat {
    if t == [] then 0 else (if t[0] == EnterRaw(true) then 1 else 0) + EnterCount(t[1..])
  }

  /** The settings applied by each restore of a trace, in order. */
  function Restores(t: seq<Event>): seq<Termios> {
    if t == [] then []
    else (if t[0].RestoreTo? then [t[0].settings] else []) + Restores(t[1..])
  }

  /** The exit codes of a trace. */
  function Exits(t: seq<Event>): seq<int> {
    if t == [] then []
    else (if t[0].Exit? then [t[0].code] else []) + Exits(t[1..])
  }

  /** No event that touches the terminal or ends the process. */
  predicate Quiet(t: seq<Event>) {
    t == [] || (QuietEvent(t[0]) && Quiet(t[1..]))
  }

  lemma TraceAppend(a: seq<Event>, b: seq<Event>)
    ensures Calls(a + b) == Calls(a) + Calls(b)
    ensures EnterCount(a + b) == EnterCount(a) + EnterCount(b)
    ensures Restores(a + b) == Restores(a) + Restores(b)
    ensures Exits(a + b) == Exits(a) + Exits(b)
  {
    CallsAppend(a, b);
    EnterCountAppend(a, b);
    RestoresAppend(a, b);
    ExitsAppend(a, b);
  }

  lemma {:induction false} CallsAppend(a: seq<Event>, b: seq<Event>)
    ensures Calls(a + b) == Calls(a) + Calls(b)
  {
    if a == [] {
      assert a + b == b;
    } else {
      var head := if a[0].Call? then [a[0].request] else [];
      assert (a + b)[0] == a[0] && (a + b)[1..] == a[1..] + b;
      assert Calls(a + b) == head + Calls(a[1..] + b);
      CallsAppend(a[1..], b);
      assert head + (Calls(a[1..]) + Calls(b)) == (head + Calls(a[1..])) + Calls(b);
    }
  }

  lemma {:induction false} EnterCountAppend(a: seq<Event>, b: seq<Event>)
    ensures EnterCount(a + b) == EnterCount(a) + EnterCount(b)
  {
    if a == [] {
      assert a + b == b;
    } else {
      assert (a + b)[0] == a[0] && (a + b)[1..] == a[1..] + b;
      EnterCountAppend(a[1..], b);
    }
  }

  lemma {:induction false} RestoresAppend(a: seq<Event>, b: seq<Event>)
    ensures Restores(a + b) == Restores(a) + Restores(b)
  {
    if a == [] {
      assert a + b == b;
    } else {
      var head := if a[0].RestoreTo? then [a[0].settings] else [];
      assert (a + b)[0] == a[0] && (a + b)[1..] == a[1..] + b;
      assert Restores(a + b) == head + Restores(a[1..] + b);
      RestoresAppend(a[1..], b);
      assert head + (Restores(a[1..]) + Restores(b)) == (head + Restores(a[1..])) + Restores(b);
    }
  }

  lemma {:induction false} ExitsAppend(a: seq<Event>, b: seq<Event>)
    ensures Exits(a + b) == Exits(a) + Exits(b)
  {
    if a == [] {
      assert a + b == b;
    } else {
      var head := if a[0].Exit? then [a[0].code] else [];
      assert (a + b)[0] == a[0] && (a + b)[1..] == a[1..] + b;
      assert Exits(a + b) == head + Exits(a[1..] + b);
      ExitsAppend(a[1..], b);
      assert head + (Exits(a[1..]) + Exits(b)) == (head + Exits(a[1..])) + Exits(b);
    }
  }

  /** The helpers on a one-event trace. */
  lemma Single(e: Event)
    ensures Calls([e]) == if e.Call? then [e.request] else []
    ensures EnterCount([e]) == if e == EnterRaw(true) then 1 else 0
    ensures Restores([e]) == if e.RestoreTo? then [e.settings] else []
    ensures Exits([e]) == if e.Exit? then [e.code] else []
  {
    assert [e][1..] == [];
  }

  /** The helpers on a two-event trace. */
  lemma Pair(a: Event, b: Event)
    ensures Calls([a, b]) == Calls([a]) + Calls([b])
    ensures EnterCount([a, b]) == EnterCount([a]) + EnterCount([b])
    ensures Restores([a, b]) == Restores([a]) + Restores([b])
    ensures Exits([a, b]) == Exits([a]) + Exits([b])
  {
    assert [a, b] == [a] + [b];
    TraceAppend([a], [b]);
  }

  /** Two quiet stretches in a row make one, whose calls are theirs in order. */
  lemma QuietChain(a: World, b: World, c: World)
    requires Grows(a, b) && Grows(b, c) && Quiet(Since(a, b)) && Quiet(Since(b, c))
    ensures Grows(a, c) && Quiet(Since(a, c))
    ensures Calls(Since(a, c)) == Calls(Since(a, b)) + Calls(Since(b, c))
  {
    SinceChain(a, b, c);
    QuietAppend(Since(a, b), Since(b, c));
  }

  lemma {:induction false} QuietAppend(a: seq<Event>, b: seq<Event>)
    requires Quiet(a) && Quiet(b)
    ensures Quiet(a + b)
  {
    if a == [] {
      assert a + b == b;
    } else {
      assert (a + b)[1..] == a[1..] + b;
      QuietAppend(a[1..], b);
    }
  }

  lemma {:induction false} QuietCounts(t: seq<Event>)
    requires Quiet(t)
    ensures EnterCount(t) == 0 && Restores(t) == [] && Exits(t) == []
  {
    if t != [] {
      QuietCounts(t[1..]);
    }
  }

  // ---------------------------------------------------------------------
  // The same state, updated in place

  class Console {
    var device: Termios
    var stdin: seq<char>
    var ttyFaults: seq<bool>
    var replies: seq<Reply>
    var trace: seq<Event>

    function State(): World
      reads this
    {
      World(device, stdin, ttyFaults, replies, trace)
    }

    constructor (w: World)
      ensures State() == w
    {
      device, stdin, ttyFaults, replies, trace := w.device, w.stdin, w.ttyFaults, w.replies, w.trace;
    }

    method MakeRaw() returns (snapshot: Option<Termios>)
      modifies this
      ensures (snapshot, State()) == old(State()).MakeRaw()
    {
      var fault := ttyFaults != [] && ttyFaults[0];
      ttyFaults := Tail(ttyFaults);
      if fault {
        snapshot := None;
      } else {
        snapshot := Some(device);
        device := RawSettings(device);
      }
      trace := trace + [Event.EnterRaw(!fault)];
    }

    method Restore(saved: Termios)
      modifies this
      ensures State() == old(State()).Restore(saved)
    {
      device := saved;
      trace := trace + [Event.RestoreTo(saved)];
    }

    method ReadByte() returns (b: Option<char>)
      modifies this
      ensures (b, State()) == old(State()).ReadByte()
    {
      if stdin == [] {
        b := None;
      } else {
        b := Some(stdin[0]);
        stdin := stdin[1..];
      }
    }

    method ReadLine() returns (line: Option<string>)
      modifies this
      ensures (line, State()) == old(State()).ReadLine()
    {
      var n := LineLength(stdin);
      if n < |stdin| {
        line := Some(stdin[..n + 1]);
        stdin := stdin[n + 1..];
      } else {
        line := None;
        stdin := [];
      }
    }

    method ScanToken() returns (token: string)
      modifies this
      ensures (token, State()) == old(State()).ScanToken()
    {
      var n := LineLength(stdin);
      token := FirstField(stdin[..n]);
      stdin := if n < |stdin| then stdin[n + 1..] else [];
    }

    method ReadPassword() returns (secret: Option<string>)
      modifies this
      ensures (secret, State()) == old(State()).ReadPassword()
    {
      var n := LineLength(stdin);
      if stdin == [] {
        secret := None;
      } else {
        secret := Some(stdin[..n]);
        stdin := if n < |stdin| then stdin[n + 1..] else [];
      }
    }

    method Call(request: Request) returns (reply: Reply)
      modifies this
      ensures (reply, State()) == old(State()).Call(request)
    {
      reply := if replies == [] then Unreachable else replies[0];
      replies := Tail(replies);
      trace := trace + [Event.Call(request)];
    }

    method Say(n: Notice)
      modifies this
      ensures State() == old(State()).Say(n)
    {
      trace := trace + [Event.Say(n)];
    }

    method Show(entries: seq<Entry>)
      modifies this
      ensures State() == old(State()).Show(entries)
    {
      trace := trace + [Event.Show(entries)];
    }

    method Offer(requests: seq<FriendRequest>)
      modifies this
      ensures State() == old(State()).Offer(requests)
    {
      trace := trace + [Event.Offer(requests)];
    }

    method List(requests: seq<FriendRequest>)
      modifies this
      ensures State() == old(State()).List(requests)
    {
      trace := trace + [Event.List(requests)];
    }

    method Exit(code: int)
      modifies this
      ensures State() == old(State()).Exit(code)
    {
      trace := trace + [Event.Exit(code)];
    }
  }
}
