# Collaborative compiler editor page — Dafny model

The editor page of the collaborative compiler is the browser side of a shared
code room. It keeps a list of connected participants and a local code buffer.
It reacts to the relay's `JOINED` and `DISCONNECTED` broadcasts, to the code
editor's change callback, and to the answer of the remote execution service
after the Run button.

This project models those reactions as pure state transitions over a page
state `Page(self, clients, code, output)`:

- `self` is the username the page joined with.
- `clients` is the participant list, a sequence of `Client(socketId, username)`.
- `code` is the local buffer.
- `output` is the text of the output box.

What the page sends (`SYNC_CODE` messages) and the notifications it raises are
returned as values, not performed.

Modules:

- `Optional` (`optional.dfy`): `Option`, used for JavaScript values that may be
  `undefined` or `null`.
- `Subsequences` (`subsequences.dfy`): order-preserving sub-sequences and their
  basic lemmas.
- `Presence` (`presence.dfy`): the `Client` record and the removal of a socket
  id from the list (the `filter` of the `DISCONNECTED` handler). It is proved
  correct against an independent characterisation.
- `RunOutput` (`run_output.dfy`): how a decoded run result becomes the shown
  text.
- `EditorPage` (`editor_page.dfy`): the handlers, a single `Step`, and a
  `Replay` over a sequence of events, with trace-level lemmas. `ReplayEvents`
  is the same replay written as a loop.

Modelling choices that follow the code:

- A username is `Option<string>`. The page compares the event's username with
  `location.state?.username`, which is `undefined` when the page has no router
  state. JavaScript's `!==` on two `undefined` values is false. So the join
  notification is raised exactly when the two `Option` values differ.
- The buffer is `Option<string>`. The code ref starts out `null` and only the
  editor's change callback sets it. A `SYNC_CODE` sent before the first edit
  carries `None`.
- Every `JOINED` makes the page send one `SYNC_CODE` addressed to the joiner.
  One might expect only one existing member to seed a newcomer, and the first
  member of a fresh room to receive no transfer at all. In the code, every page
  answers every `JOINED`, including its own join. A page that has not been
  edited yet sends its unset (null) buffer. The model follows the code.
- One might expect a duplicate `DISCONNECTED` to do nothing at all. In the
  code, the member list is indeed unchanged the second time
  (`StepIdempotent`), but the "left the room" notification is raised again.
  The model follows the code.

## Model

| member | source | states |
|---|---|---|
| Presence.WithoutSocket | src/pages/EditorPage.js:57-59 | a client is kept exactly when it was listed and its socket id differs from the departed one; every kept client keeps its multiplicity; the list never grows |
| Presence.RemovalLeavesNoTrace | src/pages/EditorPage.js:57-59 | after the removal no listed client has the departed socket id |
| Presence.RemovalKeepsOrder | src/pages/EditorPage.js:57-59 | the surviving clients keep their relative order (the result is a sub-sequence of the old list) |
| Presence.RemovalOfUnknownIsIdentity | src/pages/EditorPage.js:57-59 | a socket id that no listed client uses leaves the list unchanged |
| Presence.RemovalIdempotent | src/pages/EditorPage.js:57-59 | removing the same socket id twice gives the same list as removing it once |
| Presence.RemovalCommutes | src/pages/EditorPage.js:55-60 | two departures give the same list in either processing order |
| Presence.RemovalIsUnique | src/pages/EditorPage.js:57-59 | any ordered sub-list that drops every client of the socket id and keeps all others as often as before equals the filter result, so the filter is fully determined |
| EditorPage.InitialPage | src/pages/EditorPage.js:16-21 | a freshly mounted page lists nobody, has an unset (null) buffer and an empty output box, and keeps the username it was opened with |
| EditorPage.OnJoined | src/pages/EditorPage.js:40-53 | the member list becomes exactly the broadcast list; buffer and output are untouched; exactly one SYNC_CODE is sent, carrying the current buffer and addressed to the joiner; a notification is raised iff the joiner's name differs from our own |
| EditorPage.OnDisconnected | src/pages/EditorPage.js:55-60 | the member list loses exactly the clients with that socket id, keeps every other client as many times as before and in the same order, and never grows; buffer and output are untouched; the departure is always announced and nothing is sent |
| EditorPage.OnCodeChange | src/pages/EditorPage.js:170-172 | the buffer holds the new content whatever it held before; members and output are untouched; nothing is sent or shown |
| EditorPage.OnRunFinished | src/pages/EditorPage.js:103-118 | a decoded response puts error followed by output in the output box; a failed request leaves the page as it was |
| EditorPage.Step | src/pages/EditorPage.js:40-60 | the page's own username never changes; a JOINED sends exactly one message and every other event sends none |
| EditorPage.StepIdempotent | src/pages/EditorPage.js:40-60 | delivering any event twice leaves the page as one delivery does (a repeated DISCONNECTED does not change the list again) |
| EditorPage.DisconnectOfUnknownIsNoOp | src/pages/EditorPage.js:55-60 | a DISCONNECTED for an unknown socket id leaves the page unchanged |
| EditorPage.JoinedForgetsPriorMembers | src/pages/EditorPage.js:42-47 | the result of a JOINED does not depend on the member list held before it |
| EditorPage.LastEditWins | src/pages/EditorPage.js:170-172 | after two edits the page equals the page after the second edit alone |
| EditorPage.Replay | src/pages/EditorPage.js:40-60 | over any sequence of events the username is kept and as many messages are sent as there are JOINED events |
| EditorPage.ReplayBufferIsLatestEdit | src/pages/EditorPage.js:170-172 | after any sequence of events the buffer holds the content of the last editor change, or its initial value if there was none |
| EditorPage.ReplaySyncTargets | src/pages/EditorPage.js:48-51 | the messages sent over a sequence of events are addressed, in order, to the joiners of its JOINED events, one each |
| EditorPage.MembersOnlyShrinkWithoutJoin | src/pages/EditorPage.js:55-60 | without a JOINED the member list is an ordered sub-list of the initial one and holds no client of any disconnected socket id |
| EditorPage.MembersSurviveWithoutJoin | src/pages/EditorPage.js:55-60 | without a JOINED, every client whose socket id no DISCONNECTED names is still listed, as many times as before |
| EditorPage.MembersDeterminedAfterJoin | src/pages/EditorPage.js:47-59 | two pages fed the same events starting with a JOINED end with the same member list, whatever they listed before |
| EditorPage.ReplayEvents | src/pages/EditorPage.js:40-60 | processing events one at a time yields the replay: the buffer is the last edit and messages go to the joiners in order |
| EditorPage.TwoParticipantScenario | src/pages/EditorPage.js:40-60 | in a room of alice and bob, alice is told bob joined and sends him "print(1)"; bob sends his unset (null) buffer to himself; after alice leaves, bob lists only bob |
| RunOutput.FinalOutput | src/pages/EditorPage.js:108-113 | the shown text is always the error followed by the output, and both parts can be read back from it |
| RunOutput.FinalOutputRule | src/pages/EditorPage.js:109-113 | a non-empty error is shown in front of the output; an empty error shows the output alone |
| RunOutput.FinalOutputExamples | src/pages/EditorPage.js:109-113 | error "" with output "1\n" shows "1\n"; error "SyntaxError" with empty output shows "SyntaxError"; a failed request keeps the old text |
| RunOutput.Displayed | src/pages/EditorPage.js:103-118 | a decoded response replaces the shown text with error followed by output; a failure keeps the shown text |
| RunOutput.DisplayedIdempotent | src/pages/EditorPage.js:108-115 | showing the same response twice gives the same text as showing it once |

## Left out

- Socket creation, the `connect_error` and `connect_failed` handlers and the redirect home (lines 25–33): these are transport I/O and navigation.
- Emitting `JOIN` (lines 35–38), effect cleanup, `disconnect` and `off` (lines 63–67): these are transport and React lifecycle. The model starts from `InitialPage` and receives events.
- The HTTP request to the execution service: reading the language and input fields, URL encoding, `fetch`, reading the body and `JSON.parse` (lines 84–107). A response enters the model already decoded as `Decoded(error, output)`, or as `Failed` for any rejection or exception the `catch` swallows (see the next line).
- Response fields that are missing or not strings: the service contract gives two strings. JSON such as `{"output":"1"}` or `5` does not make the page throw. The page then shows JavaScript's conversion of `undefined` (for example "undefined1"), which is not modelled. `Failed` covers only what reaches the `catch`: a rejected request, an unreadable body, a body that is not JSON, or the JSON value `null`.
- Clipboard copy (lines 70–78), leaving the room (lines 80–82), the redirect when there is no router state (lines 120–122), and all rendering (lines 124–196): UI and navigation only.
- Notification wording and console logging: only the decision to notify, with the username it names, is modelled.
- Receiving `CODE_CHANGE` and `SYNC_CODE`, and broadcasting local edits: these live in the editor component, which is not part of this model. The buffer changes here only through the change callback.
- The relay's room registry, fan-out and delivery order across clients: the relay is not part of this model. Each page processes one event at a time.
