/** The editor page's reaction to the events it handles, as pure state
    transitions.  The page holds the participant list, the local code buffer
    (a ref that the editor overwrites on every change) and the text of the
    output box.  What the page sends over the socket and whether it raises a
    notification are returned alongside the new state instead of being
    performed.
 */
module EditorPage {
  import opened Optional
  import opened Subsequences
  import opened Presence
  import opened RunOutput

  /** The local code buffer: `None` until the editor reports its first
      change (the ref starts out `null`). */
  type Buffer = Option<string>

  /** Page state.  `self` is the username this page joined with; it never
      changes while the page is open. */
  datatype Page = Page(self: Name, clients: seq<Client>, code: Buffer, output: string)

  /** The state right after the page mounts: nobody listed, no code, an
      empty output box. */
  function InitialPage(self: Name): (r: Page)
    ensures r.self == self && r.clients == [] && r.code == None && r.output == ""
  {
    Page(self, [], None, "")
  }

  /** A `SYNC_CODE` message: the sender's buffer, addressed to one socket. */
  datatype Message = SyncCode(code: Buffer, socketId: SocketId)

  /** A visible notification, with the username it names. */
  datatype Toast = JoinedRoom(username: Name) | LeftRoom(username: Name)

  /** The inputs the page reacts to. */
  datatype Event =
    | Joined(members: seq<Client>, username: Name, socketId: SocketId)
    | Disconnected(socketId: SocketId, username: Name)
    | CodeChanged(code: string)
    | RunFinished(response: Response)

  /** The page after one event, with what it sent and showed. */
  datatype Reaction = Reaction(page: Page, toast: Option<Toast>, sent: seq<Message>)

  /** `JOINED`: adopt the relay's member list as it is, tell the joiner
      our buffer, and announce anybody whose name differs from ours. */
  function OnJoined(p: Page, members: seq<Client>, username: Name, socketId: SocketId): (r: Reaction)
    ensures r.page.clients == members
    ensures r.page.self == p.self && r.page.code == p.code && r.page.output == p.output
    ensures |r.sent| == 1 && r.sent[0].code == p.code && r.sent[0].socketId == socketId
    ensures r.toast.Some? <==> username != p.self
    ensures r.toast.Some? ==> r.toast.value == JoinedRoom(username)
  {
    var toast := if username != p.self then Some(JoinedRoom(username)) else None;
    Reaction(p.(clients := members), toast, [SyncCode(p.code, socketId)])
  }

  /** `DISCONNECTED`: drop every listed client with that socket id and say
      who left; nothing is sent. */
  function OnDisconnected(p: Page, socketId: SocketId, username: Name): (r: Reaction)
    ensures forall c :: c in r.page.clients <==> c in p.clients && c.socketId != socketId
    ensures forall c: Client :: c.socketId != socketId ==> multiset(r.page.clients)[c] == multiset(p.clients)[c]
    ensures IsSubsequence(r.page.clients, p.clients)
    ensures |r.page.clients| <= |p.clients|
    ensures r.page.self == p.self && r.page.code == p.code && r.page.output == p.output
    ensures r.toast == Some(LeftRoom(username)) && r.sent == []
  {
    RemovalKeepsOrder(p.clients, socketId);
    Reaction(p.(clients := WithoutSocket(p.clients, socketId)), Some(LeftRoom(username)), [])
  }

  /** An editor change: the new content replaces the buffer, whatever it
      held; nothing is sent from here and nothing is shown. */
  function OnCodeChange(p: Page, code: string): (r: Reaction)
    ensures r.page.code == Some(code)
    ensures r.page.self == p.self && r.page.clients == p.clients && r.page.output == p.output
    ensures r.toast == None && r.sent == []
  {
    Reaction(p.(code := Some(code)), None, [])
  }

  /** A finished run: the output box shows the combined text, or keeps its
      text when the request failed. */
  function OnRunFinished(p: Page, response: Response): (r: Reaction)
    ensures response.Failed? ==> r.page == p
    ensures response.Decoded? ==> r.page.output == response.error + response.output
    ensures r.page.self == p.self && r.page.clients == p.clients && r.page.code == p.code
    ensures r.toast == None && r.sent == []
  {
    Reaction(p.(output := Displayed(p.output, response)), None, [])
  }

  /** One event.  Only `JOINED` sends anything, and then exactly one message. */
  function Step(p: Page, e: Event): (r: Reaction)
    ensures r.page.self == p.self
    ensures |r.sent| == (if e.Joined? then 1 else 0)
  {
    match e
    case Joined(members, username, socketId) => OnJoined(p, members, username, socketId)
    case Disconnected(socketId, username) => OnDisconnected(p, socketId, username)
    case CodeChanged(code) => OnCodeChange(p, code)
    case RunFinished(response) => OnRunFinished(p, response)
  }

  /** Delivering any event a second time leaves the page as the first
      delivery left it; in particular a repeated `DISCONNECTED` does not
      change the member list again.  (The notification and any message are
      produced again.) */
  lemma {:induction false} StepIdempotent(p: Page, e: Event)
    ensures Step(Step(p, e).page, e).page == Step(p, e).page
  {
    if e.Disconnected? {
      RemovalIdempotent(p.clients, e.socketId);
    }
  }

  /** A `DISCONNECTED` for a socket id nobody in the list uses changes
      nothing on the page, though it is still announced. */
  lemma {:induction false} DisconnectOfUnknownIsNoOp(p: Page, socketId: SocketId, username: Name)
    requires forall c :: c in p.clients ==> c.socketId != socketId
    ensures Step(p, Disconnected(socketId, username)).page == p
  {
    RemovalOfUnknownIsIdentity(p.clients, socketId);
  }

  /** The member list after `JOINED` does not depend on the list before it. */
  lemma JoinedForgetsPriorMembers(p: Page, q: Page, members: seq<Client>, username: Name, socketId: SocketId)
    requires p.self == q.self && p.code == q.code && p.output == q.output
    ensures Step(p, Joined(members, username, socketId)) == Step(q, Joined(members, username, socketId))
  {
  }

  /** Last writer wins: of two edits, only the second is visible. */
  lemma LastEditWins(p: Page, first: string, second: string)
    ensures Step(Step(p, CodeChanged(first)).page, CodeChanged(second)).page
         == Step(p, CodeChanged(second)).page
  {
  }

  /** The page after a whole sequence of events, with everything it sent and
      every notification it raised, in order. */
  datatype Trace = Trace(page: Page, sent: seq<Message>, toasts: seq<Toast>)

  function ToastList(t: Option<Toast>): seq<Toast>
  {
    match t
    case Some(x) => [x]
    case None => []
  }

  /** Events handled one after another, as the page's single event loop
      delivers them. */
  function Replay(p: Page, events: seq<Event>): (t: Trace)
    ensures t.page.self == p.self
    ensures |t.sent| == |Joiners(events)|
    decreases |events|
  {
    if |events| == 0 then Trace(p, [], [])
    else
      var before := Replay(p, events[..|events| - 1]);
      var r := Step(before.page, events[|events| - 1]);
      Trace(r.page, before.sent + r.sent, before.toasts + ToastList(r.toast))
  }

  /** The socket ids announced by the `JOINED` events, in order. */
  function Joiners(events: seq<Event>): seq<SocketId>
    decreases |events|
  {
    if |events| == 0 then []
    else
      var last := events[|events| - 1];
      Joiners(events[..|events| - 1]) + (if last.Joined? then [last.socketId] else [])
  }

  /** The content of the last editor change among `events`, or `initial`
      when there is none. */
  function LatestEdit(events: seq<Event>, initial: Buffer): Buffer
    decreases |events|
  {
    if |events| == 0 then initial
    else if events[|events| - 1].CodeChanged? then Some(events[|events| - 1].code)
    else LatestEdit(events[..|events| - 1], initial)
  }

  /** The socket ids addressed by a sequence of messages. */
  function Targets(sent: seq<Message>): seq<SocketId>
    decreases |sent|
  {
    if |sent| == 0 then [] else Targets(sent[..|sent| - 1]) + [sent[|sent| - 1].socketId]
  }

  lemma {:induction false} TargetsAppend(a: seq<Message>, b: seq<Message>)
    ensures Targets(a + b) == Targets(a) + Targets(b)
    decreases |b|
  {
    if |b| > 0 {
      assert (a + b)[..|a + b| - 1] == a + b[..|b| - 1];
      TargetsAppend(a, b[..|b| - 1]);
    } else {
      assert a + b == a;
    }
  }

  /** Over any run of events the buffer holds the last edit: whatever the
      page received in between, no event but an edit touches it. */
  lemma {:induction false} ReplayBufferIsLatestEdit(p: Page, events: seq<Event>)
    ensures Replay(p, events).page.code == LatestEdit(events, p.code)
    decreases |events|
  {
    if |events| > 0 {
      ReplayBufferIsLatestEdit(p, events[..|events| - 1]);
    }
  }

  /** Every `JOINED` is answered with exactly one `SYNC_CODE`, addressed to
      that event's joiner, and nothing else is sent. */
  lemma {:induction false} ReplaySyncTargets(p: Page, events: seq<Event>)
    ensures Targets(Replay(p, events).sent) == Joiners(events)
    decreases |events|
  {
    if |events| > 0 {
      var before := Replay(p, events[..|events| - 1]);
      var r := Step(before.page, events[|events| - 1]);
      ReplaySyncTargets(p, events[..|events| - 1]);
      TargetsAppend(before.sent, r.sent);
    }
  }

  /** No `DISCONNECTED` event among `events` names `socketId`. */
  predicate NeverDisconnected(events: seq<Event>, socketId: SocketId)
  {
    forall i :: 0 <= i < |events| && events[i].Disconnected? ==> events[i].socketId != socketId
  }

  /** Without a `JOINED`, the member list only loses entries, keeps the
      rest in order, and holds nobody whose socket was announced as
      disconnected.  `MembersSurviveWithoutJoin` gives the converse. */
  lemma {:induction false} MembersOnlyShrinkWithoutJoin(p: Page, events: seq<Event>)
    requires forall i :: 0 <= i < |events| ==> !events[i].Joined?
    ensures IsSubsequence(Replay(p, events).page.clients, p.clients)
    ensures forall i, c :: 0 <= i < |events| && events[i].Disconnected? && c in Replay(p, events).page.clients
                           ==> c.socketId != events[i].socketId
    decreases |events|
  {
    if |events| == 0 {
      SubsequenceReflexive(p.clients);
    } else {
      var prefix := events[..|events| - 1];
      var last := events[|events| - 1];
      forall i | 0 <= i < |prefix|
        ensures !prefix[i].Joined?
      {
        assert prefix[i] == events[i];
      }
      MembersOnlyShrinkWithoutJoin(p, prefix);
      var before := Replay(p, prefix).page;
      var after := Replay(p, events).page;
      assert after == Step(before, last).page;
      if last.Disconnected? {
        assert after.clients == WithoutSocket(before.clients, last.socketId);
        RemovalKeepsOrder(before.clients, last.socketId);
        SubsequenceTransitive(after.clients, before.clients, p.clients);
      } else {
        assert after.clients == before.clients;
      }
      forall i, c | 0 <= i < |events| && events[i].Disconnected? && c in after.clients
        ensures c.socketId != events[i].socketId
      {
        assert c in before.clients;
        if i < |prefix| {
          assert events[i] == prefix[i];
        }
      }
    }
  }

  /** Without a `JOINED`, every client whose socket no `DISCONNECTED`
      names is still listed, as many times as before.  With
      `MembersOnlyShrinkWithoutJoin` this describes the whole filter over a
      run of events. */
  lemma {:induction false} MembersSurviveWithoutJoin(p: Page, events: seq<Event>)
    requires forall i :: 0 <= i < |events| ==> !events[i].Joined?
    ensures forall c: Client :: NeverDisconnected(events, c.socketId) ==>
              multiset(Replay(p, events).page.clients)[c] == multiset(p.clients)[c]
    decreases |events|
  {
    if |events| > 0 {
      var prefix := events[..|events| - 1];
      var last := events[|events| - 1];
      forall i | 0 <= i < |prefix|
        ensures !prefix[i].Joined?
      {
        assert prefix[i] == events[i];
      }
      MembersSurviveWithoutJoin(p, prefix);
      var before := Replay(p, prefix).page;
      var after := Replay(p, events).page;
      assert after == Step(before, last).page;
      forall c: Client | NeverDisconnected(events, c.socketId)
        ensures multiset(after.clients)[c] == multiset(p.clients)[c]
      {
        assert NeverDisconnected(prefix, c.socketId) by {
          forall i | 0 <= i < |prefix| && prefix[i].Disconnected?
            ensures prefix[i].socketId != c.socketId
          {
            assert prefix[i] == events[i];
          }
        }
        if last.Disconnected? {
          assert last.socketId != c.socketId;
        } else {
          assert after.clients == before.clients;
        }
      }
    }
  }

  /** Once a `JOINED` arrives, the member list no longer depends on what
      the page listed before: two pages fed the same events from a `JOINED`
      on list the same members. */
  lemma {:induction false} MembersDeterminedAfterJoin(p: Page, q: Page, events: seq<Event>)
    requires |events| > 0 && events[0].Joined?
    ensures Replay(p, events).page.clients == Replay(q, events).page.clients
    decreases |events|
  {
    if |events| > 1 {
      var prefix := events[..|events| - 1];
      assert prefix[0] == events[0];
      MembersDeterminedAfterJoin(p, q, prefix);
    }
  }

  /** The event loop: the same replay, one event at a time. */
  method ReplayEvents(p: Page, events: seq<Event>) returns (page: Page, sent: seq<Message>, toasts: seq<Toast>)
    ensures Trace(page, sent, toasts) == Replay(p, events)
    ensures page.code == LatestEdit(events, p.code)
    ensures Targets(sent) == Joiners(events)
  {
    page, sent, toasts := p, [], [];
    var i := 0;
    while i < |events|
      invariant 0 <= i <= |events|
      invariant Trace(page, sent, toasts) == Replay(p, events[..i])
    {
      assert events[..i + 1][..i] == events[..i];
      var r := Step(page, events[i]);
      page, sent, toasts := r.page, sent + r.sent, toasts + ToastList(r.toast);
      i := i + 1;
    }
    assert events[..i] == events;
    ReplayBufferIsLatestEdit(p, events);
    ReplaySyncTargets(p, events);
  }

  /** The two-participant scenario: alice has typed `print(1)` when bob
      joins.  Both pages list both members; alice is told bob joined and
      sends him her buffer; bob, seeing his own join, shows nothing and sends
      his unset (null) buffer to himself.  When alice later disconnects, bob's
      list holds only bob. */
  lemma TwoParticipantScenario()
    ensures
      var alice := Client("A", Some("alice"));
      var bob := Client("B", Some("bob"));
      var join := Joined([alice, bob], Some("bob"), "B");
      var atAlice := Step(Page(Some("alice"), [alice], Some("print(1)"), ""), join);
      var atBob := Step(InitialPage(Some("bob")), join);
      && atAlice.page.clients == [alice, bob]
      && atAlice.toast == Some(JoinedRoom(Some("bob")))
      && atAlice.sent == [SyncCode(Some("print(1)"), "B")]
      && atBob.page.clients == [alice, bob]
      && atBob.toast == None
      && atBob.sent == [SyncCode(None, "B")]
      && Step(atBob.page, Disconnected("A", Some("alice"))).page.clients == [bob]
  {
    var alice := Client("A", Some("alice"));
    var bob := Client("B", Some("bob"));
    assert WithoutSocket([alice, bob], "A") == [bob] by {
      assert [alice, bob][1..] == [bob];
      assert [bob][1..] == [];
    }
  }

}
