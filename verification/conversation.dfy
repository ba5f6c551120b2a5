/**
 * Fetching and displaying one conversation: the GET of the conversation,
 * the filter that keeps only the messages between the user and one friend,
 * and how each kept message is labelled. The three copies of the receive
 * command share these rules; they differ only in where the friend's id and
 * name come from.
 */
module Conversation {
  import opened Wrappers
  import opened Types
  import opened Console

  /** A message the user sent to the peer, or one the peer sent to the user. */
  predicate Between(m: Message, me: string, peerId: string) {
    (m.sender == me && m.recipient == peerId) || (m.sender == peerId && m.recipient == me)
  }

  /** The messages of `ms` between the user and the peer, in their original order. */
  function Filter(ms: seq<Message>, me: string, peerId: string): (kept: seq<Message>)
    ensures |kept| <= |ms|
  {
    if ms == [] then []
    else (if Between(ms[0], me, peerId) then [ms[0]] else []) + Filter(ms[1..], me, peerId)
  }

  /** Exactly the messages between the two are kept. */
  lemma {:induction false} FilterExactly(ms: seq<Message>, me: string, peerId: string)
    ensures forall m :: m in Filter(ms, me, peerId) <==> m in ms && Between(m, me, peerId)
  {
    if ms != [] {
      FilterExactly(ms[1..], me, peerId);
      assert ms == [ms[0]] + ms[1..];
    }
  }

  /** Filtering a conversation piece by piece gives the same as filtering it whole. */
  lemma {:induction false} FilterAppend(a: seq<Message>, b: seq<Message>, me: string, peerId: string)
    ensures Filter(a + b, me, peerId) == Filter(a, me, peerId) + Filter(b, me, peerId)
  {
    if a == [] {
      assert a + b == b;
    } else {
      var head := if Between(a[0], me, peerId) then [a[0]] else [];
      assert (a + b)[0] == a[0] && (a + b)[1..] == a[1..] + b;
      assert Filter(a + b, me, peerId) == head + Filter(a[1..] + b, me, peerId);
      FilterAppend(a[1..], b, me, peerId);
      assert head + (Filter(a[1..], me, peerId) + Filter(b, me, peerId))
          == (head + Filter(a[1..], me, peerId)) + Filter(b, me, peerId);
    }
  }

  /** Only the sender and recipient matter, and which of the two is "me" does not. */
  lemma {:induction false} FilterSymmetric(ms: seq<Message>, me: string, peerId: string)
    ensures Filter(ms, me, peerId) == Filter(ms, peerId, me)
  {
    if ms != [] {
      FilterSymmetric(ms[1..], me, peerId);
    }
  }

  lemma {:induction false} FilterIdempotent(ms: seq<Message>, me: string, peerId: string)
    ensures Filter(Filter(ms, me, peerId), me, peerId) == Filter(ms, me, peerId)
  {
    if ms != [] {
      var head := if Between(ms[0], me, peerId) then [ms[0]] else [];
      FilterAppend(head, Filter(ms[1..], me, peerId), me, peerId);
      FilterIdempotent(ms[1..], me, peerId);
    }
  }

  /** The filter of displayConversation, building the kept list by appending. */
  method FilterConversation(ms: seq<Message>, me: string, peerId: string) returns (kept: seq<Message>)
    ensures kept == Filter(ms, me, peerId)
  {
    kept := [];
    var i := 0;
    while i < |ms|
      invariant 0 <= i <= |ms|
      invariant kept == Filter(ms[..i], me, peerId)
    {
      assert ms[..i + 1] == ms[..i] + [ms[i]];
      FilterAppend(ms[..i], [ms[i]], me, peerId);
      if Between(ms[i], me, peerId) {
        kept := kept + [ms[i]];
      }
      i := i + 1;
    }
    assert ms[..i] == ms;
  }

  /** How one kept message is shown: who wrote it and its read state. */
  function Describe(m: Message, me: string, peerName: string): (e: Entry)
    ensures e.author == You <==> m.sender == me
    ensures e.author != You ==> e.author == Peer(peerName)
    ensures e.status == Read <==> m.isRead
    ensures e.status == Delivered <==> !m.isRead && m.sender == me
    ensures e.status == Unread <==> !m.isRead && m.sender != me
    ensures e.messageId == m.messageId && e.text == m.text
  {
    if m.sender == me then Entry(You, if !m.isRead then Delivered else Read, m.messageId, m.text)
    else Entry(Peer(peerName), if !m.isRead then Unread else Read, m.messageId, m.text)
  }

  function Entries(ms: seq<Message>, me: string, peerName: string): (es: seq<Entry>)
    ensures |es| == |ms|
    ensures forall i :: 0 <= i < |ms| ==> es[i] == Describe(ms[i], me, peerName)
  {
    if ms == [] then [] else [Describe(ms[0], me, peerName)] + Entries(ms[1..], me, peerName)
  }

  /** displayConversation: the kept messages, or a notice when there are none. */
  function Display(w: World, me: string, peerId: string, peerName: string, ms: seq<Message>): World {
    var kept := Filter(ms, me, peerId);
    if kept == [] then w.Say(NoMessages) else w.Show(Entries(kept, me, peerName))
  }

  /**
   * What the display shows is exactly the conversation: one entry per kept
   * message, in order; an entry not labelled "You" is a message the peer
   * sent to the user; nothing is listed when no message qualifies. In a
   * conversation with oneself every entry is labelled "You".
   */
  lemma DisplayShowsTheConversation(w: World, me: string, peerId: string, peerName: string, ms: seq<Message>)
    ensures var r := Display(w, me, peerId, peerName, ms);
      Grows(w, r) && |Since(w, r)| == 1 &&
      (Since(w, r)[0] == Say(NoMessages) <==> forall m | m in ms :: !Between(m, me, peerId)) &&
      (Since(w, r)[0].Show? ==>
        var es := Since(w, r)[0].entries;
        var kept := Filter(ms, me, peerId);
        |es| == |kept| &&
        forall i :: 0 <= i < |es| ==>
          kept[i] in ms &&
          (es[i].author == You ==> kept[i].sender == me && kept[i].recipient == peerId) &&
          (es[i].author != You ==> kept[i].sender == peerId && kept[i].recipient == me &&
                                   es[i].author == Peer(peerName)))
    ensures var r := Display(w, me, peerId, peerName, ms);
      me == peerId && Since(w, r)[0].Show? ==>
        forall i :: 0 <= i < |Since(w, r)[0].entries| ==> Since(w, r)[0].entries[i].author == You
  {
    var kept := Filter(ms, me, peerId);
    var r := Display(w, me, peerId, peerName, ms);
    FilterExactly(ms, me, peerId);
    assert Since(w, r) == r.trace[|w.trace|..];
    if kept == [] {
      forall m | m in ms ensures !Between(m, me, peerId) {
        assert m !in kept;
      }
    } else {
      assert kept[0] in ms && Between(kept[0], me, peerId);
      var es := Entries(kept, me, peerName);
      forall i | 0 <= i < |es|
        ensures kept[i] in ms && Between(kept[i], me, peerId)
      {
        assert kept[i] in kept;
      }
    }
  }

  /** displayConversation, step by step. */
  method ShowConversation(con: Console, me: string, peerId: string, peerName: string, ms: seq<Message>)
    modifies con
    ensures con.State() == Display(old(con.State()), me, peerId, peerName, ms)
  {
    var kept := FilterConversation(ms, me, peerId);
    if |kept| == 0 {
      con.Say(NoMessages);
      return;
    }
    var entries := [];
    var i := 0;
    while i < |kept|
      invariant 0 <= i <= |kept|
      invariant |entries| == i
      invariant forall j :: 0 <= j < i ==> entries[j] == Describe(kept[j], me, peerName)
    {
      entries := entries + [Describe(kept[i], me, peerName)];
      i := i + 1;
    }
    assert entries == Entries(kept, me, peerName);
    con.Show(entries);
  }

  /** A reply fetchConversation accepts: status 200 and a decodable body. */
  predicate Fetched(r: Reply) {
    r.Response? && r.status == 200 && r.body.Some?
  }

  /**
   * fetchConversation: one GET of the conversation with `peerId`, displayed
   * when the reply is accepted; otherwise an error is returned to the caller.
   */
  function Fetch(w: World, me: string, peerId: string, peerName: string): (res: (bool, World))
    ensures Grows(w, res.1)
    ensures res.1.device == w.device && res.1.stdin == w.stdin && res.1.ttyFaults == w.ttyFaults
    ensures res.1.replies == Tail(w.replies)
    ensures res.0 <==> w.replies != [] && Fetched(w.replies[0])
    ensures Quiet(Since(w, res.1)) && Calls(Since(w, res.1)) == [Request.FetchConversation(peerId)]
  {
    var q := Request.FetchConversation(peerId);
    var (reply, w1) := w.Call(q);
    Quietly(w, w1, Event.Call(q));
    if Fetched(reply) then
      var r := Display(w1, me, peerId, peerName, reply.body.value.messages);
      var e := r.trace[|r.trace| - 1];
      assert r.trace == w1.trace + [e];
      Quietly2(w, w1, r, Event.Call(q), e);
      (true, r)
    else (false, w1)
  }

  method RunFetch(con: Console, me: string, peerId: string, peerName: string) returns (ok: bool)
    modifies con
    ensures (ok, con.State()) == Fetch(old(con.State()), me, peerId, peerName)
  {
    var reply := con.Call(Request.FetchConversation(peerId));
    if Fetched(reply) {
      ShowConversation(con, me, peerId, peerName, reply.body.value.messages);
      ok := true;
    } else {
      ok := false;
    }
  }
}
