# Collaborative presentation editor client — a Dafny model

This project models the logic of the web client of a real-time collaborative presentation
editor. Participants join a presentation under a nickname, and each holds a role: Creator,
Editor or Viewer. They add and remove slides, and add, edit, move and delete elements on
slides. Every change travels through a hub connection. The hub broadcasts it back as an event,
and every client applies that event to its local copy of the presentation.

The model covers three parts of the client:

- **The data model** (`src/models/index.ts`). It covers presentations, slides, slide elements,
  participants and the two enums with their wire codes. These are Dafny datatypes in `models.dfy`.
  The wire requests and the names of the eleven hub events are in `hub.dfy`.
- **The editor component** (`src/components/PresentationEditor.tsx`):
  - Each inbound event has a reducer that is a pure function of the current state and the
    payload. The reducers are split by concern:
    - `roster.dfy`: the participant roster;
    - `slides.dfy`: slides and the slide cursor;
    - `elements.dfy`: elements and the selection.
  - The decision rules are in `intents.dfy`: the nickname and the creator hint, the permission
    gates, the default element records and the move guard.
  - The component state is the class `Editor.EditorState` (`editor.dfy`). Its handler methods
    update the fields in place by applying those functions.
  - `subscriptions.dfy` covers how the component subscribes its callbacks to the service and
    cleans them up.
- **The real-time service** (`src/services/signalr.service.ts`):
  - The subscriber table is in `registry.dfy`, as pure functions.
  - The class `SignalR.SignalRService` (`signalr.dfy`) holds the connection state machine
    (`connect`, `ensureConnected`, the library's reconnect and close callbacks, `disconnect`),
    the outbound calls, `on`/`off`, and the `triggerEvent` dispatch loop.

Interactions with the outside are parameters:

- whether the hub library's `start` succeeds (`startOk`);
- whether an invocation succeeds (`invokeOk`, `leaveOk`);
- the settled outcome of a service call, as the editor sees it (`callOk`);
- which subscribers throw (`throws`);
- the browser's durable key-value store (`Storage`).

Callbacks are opaque ids compared by identity. JavaScript numbers are `int`. `Seqs.Filter` is
`Array.prototype.filter`. `Array.prototype.sort` by `order` is an insertion sort (`Slides.SortByOrder`).

Points of the code worth noting:

- The slide controls are shown to the Creator only (line 767).
- `handleChangeUserRole` performs no permission check of its own. Only the rendering hides the
  role buttons from non-creators (858-859). An Editor's role change is therefore not refused
  locally (`Intents.EditorCannotChangeRoles` covers only the hidden buttons).
- The element click/move guard refuses only a cached Viewer. Before the roster arrives, the
  local participant is unknown and may move elements (`Intents.MoveGuardAdmitsUnknownUser`).
- `handleRemoveSlide` guards only against an empty list. The button that calls it is disabled
  while a single slide is left (`Intents.RemoveSlideEnabled`).
- The rejoin after a reconnect sends `isCreator = false`, with the stored nickname or "User".
- A presentation id of 0 counts as "not joined", because of JavaScript truthiness
  (`SignalR.InPresentation`).
- When the leave call fails, `disconnect` skips `stop()` but still resets every field.
- A duplicated add broadcast adds the element twice (`Elements.ElementAddedTwiceDuplicates`).
  Last-write-wins per element holds only for the pairs proved below.

Two rules of the code are not followed by the rest of the model; both are listed under
"## Findings" with a member for the code as written. `Editor.EditorState.OnSlideRemoved` moves
the cursor by the corrected rule, and `Subscriptions.Cleanup` unsubscribes the callbacks the
setup registered.

## Model

| member | source | states |
|---|---|---|
| Models.ElementTypeCode | src/models/index.ts:16-21 | every element kind has a wire code in 0..3 |
| Models.ElementTypeFromCode | src/models/index.ts:16-21 | exactly the codes 0..3 decode to a kind, and decoding inverts the encoding on them |
| Models.ElementTypeCodeRoundTrip | src/models/index.ts:16-21 | decoding the code of a kind gives back that kind |
| Models.UserRoleCode | src/models/index.ts:36-40 | every role has a wire code in 0..2 |
| Models.UserRoleFromCode | src/models/index.ts:36-40 | exactly the codes 0..2 decode to a role, and decoding inverts the encoding on them |
| Models.UserRoleCodeRoundTrip | src/models/index.ts:36-40 | decoding the code of a role gives back that role |
| Roster.UserJoined | src/components/PresentationEditor.tsx:118-129 | a join for a connection id already on the roster returns the roster unchanged; otherwise the user is appended at the end and nothing else changes |
| Roster.UserJoinedIdempotent | src/components/PresentationEditor.tsx:118-129 | applying the same join twice equals applying it once |
| Roster.UserJoinedKeepsUnique | src/components/PresentationEditor.tsx:118-129 | a join never creates a second entry for a connection id |
| Roster.JoinAll | src/components/PresentationEditor.tsx:118-129 | a series of joins only appends, and adds at most one entry per join |
| Roster.JoinAllKeepsUnique | src/components/PresentationEditor.tsx:118-129 | any series of joins, duplicates included, keeps connection ids unique and leaves every joined id on the roster |
| Roster.UserLeft | src/components/PresentationEditor.tsx:131-138 | the result holds exactly the entries with another connection id |
| Roster.UserLeftUnknownIsNoop | src/components/PresentationEditor.tsx:131-138 | a leave for an unknown connection id is a no-op |
| Roster.UserLeftKeepsOrder | src/components/PresentationEditor.tsx:131-138 | the remaining entries keep their relative order |
| Roster.FirstWithNickname | src/components/PresentationEditor.tsx:145 | finds the first entry with the nickname, or reports that none has it |
| Roster.CurrentUserFromList | src/components/PresentationEditor.tsx:140-152 | a roster replacement sets the local participant to the first entry with the local nickname, and keeps the old one when there is none |
| Roster.UserRoleChanged | src/components/PresentationEditor.tsx:154-164 | same length; entries with that connection id get the new role and keep every other field; all other entries are unchanged |
| Roster.CurrentUserRoleChanged | src/components/PresentationEditor.tsx:166-172 | the cached local participant changes role only when its connection id matches |
| Roster.UserRoleChangedKeepsConnections | src/components/PresentationEditor.tsx:154-164 | a role change keeps the set of connection ids and their uniqueness |
| Roster.UserRoleChangedIdempotent | src/components/PresentationEditor.tsx:154-164 | applying the same role change twice equals applying it once |
| Roster.UserRoleChangedUnknownIsNoop | src/components/PresentationEditor.tsx:154-164 | a role change for an unknown connection id is a no-op |
| Roster.CurrentUserAgreesWithRoster | src/components/PresentationEditor.tsx:154-173 | a cached participant equal to a roster entry stays equal to it after a role change |
| Slides.InsertByOrder | src/components/PresentationEditor.tsx:180 | inserting adds exactly the new slide to the list |
| Slides.InsertByOrderSorted | src/components/PresentationEditor.tsx:180 | inserting into a rank-ordered list keeps it ordered |
| Slides.SortByOrder | src/components/PresentationEditor.tsx:180 | the sort returns a rank-ordered permutation of its input |
| Slides.InsertByOrderStable | src/components/PresentationEditor.tsx:180 | an inserted slide goes in front of the slides of its own rank; the slides of each rank otherwise keep their order |
| Slides.SortByOrderStable | src/components/PresentationEditor.tsx:180 | the sort is stable: the slides of each rank come out in the order they went in |
| Slides.SortSortedIsIdentity | src/components/PresentationEditor.tsx:180 | sorting an ordered list leaves it unchanged |
| Slides.SlideAdded | src/components/PresentationEditor.tsx:175-183 | no-op without a presentation; otherwise the slides are a rank-ordered permutation of the old slides plus the new one, with length + 1, and nothing else changes |
| Slides.SlideAddedAfterMaxAppends | src/components/PresentationEditor.tsx:175-183 | a slide ranked at or above all others is appended last |
| Slides.MaxOrder | src/components/PresentationEditor.tsx:302-303 | the highest rank of a non-empty list is the rank of one of its slides, and is not below any rank |
| Slides.NextSlideOrder | src/components/PresentationEditor.tsx:299-304 | 1 for no slides; otherwise strictly above every rank and one above an existing rank |
| Slides.NextSlideIsAppended | src/components/PresentationEditor.tsx:299-307 | a slide at the rank `handleAddSlide` picks lands at the end of an ordered list |
| Slides.SlideRemoved | src/components/PresentationEditor.tsx:185-192 | exactly the slides with that id are dropped and nothing else changes |
| Slides.SlideRemovedKeepsOrder | src/components/PresentationEditor.tsx:190 | the surviving slides keep their relative order |
| Slides.SlideRemovedUnknownIsNoop | src/components/PresentationEditor.tsx:185-192 | removing an id that no slide carries is a no-op |
| Slides.FilterKeepsSorted | src/components/PresentationEditor.tsx:190 | removing slides keeps a rank-ordered list ordered |
| Slides.SlideRemovedCursor | src/components/PresentationEditor.tsx:194-196 | as written: the cursor moves back one, clamped at 0, exactly when the slide under it is removed, and otherwise stays |
| Slides.SlideRemovedCursorLeavesRange | src/components/PresentationEditor.tsx:185-196 | as written, removing the slide before the cursor leaves the cursor past the end of the list |
| Slides.SlideRemovedCursorFixed | src/components/PresentationEditor.tsx:194-196 | corrected: the cursor keeps naming the slide it named; when that slide is removed it moves back one, clamped at 0; an in-range cursor stays in range |
| Slides.ChangeSlide | src/components/PresentationEditor.tsx:561-565 | the cursor moves only to an index naming an existing slide; an in-range cursor stays in range |
| Slides.RemoveSlideTarget | src/components/PresentationEditor.tsx:314-317 | the target is the id of the slide under the cursor, when there is one |
| Slides.RemoveSlideTargetExists | src/components/PresentationEditor.tsx:314-317 | with an in-range cursor and at least one slide there is always a target |
| Elements.SameFramesKeepSorted | src/components/PresentationEditor.tsx:199-273 | element events never reorder slides, so the slide list stays rank-ordered |
| Elements.ElementAdded | src/components/PresentationEditor.tsx:199-212 | no-op without a presentation; the slide frames and presentation fields stay |
| Elements.ElementAddedOnlyOwningSlide | src/components/PresentationEditor.tsx:199-212 | only the owning slide gains the element, at the end of its list; an unknown slide id is a no-op |
| Elements.ElementAddedTwiceDuplicates | src/components/PresentationEditor.tsx:199-212 | a duplicated add leaves two copies on the owning slide |
| Elements.Replaced | src/components/PresentationEditor.tsx:221-226 | replacing by id keeps the length of a slide's element list |
| Elements.ElementUpdated | src/components/PresentationEditor.tsx:214-231 | no-op without a presentation; slide frames and presentation fields stay |
| Elements.ElementUpdatedOnlyMatching | src/components/PresentationEditor.tsx:214-231 | only elements with that id on the owning slide change, and they become the new element |
| Elements.ElementUpdatedUnknownIsNoop | src/components/PresentationEditor.tsx:214-231 | an update for an unknown slide or element is a no-op |
| Elements.ElementUpdatedLastWriteWins | src/components/PresentationEditor.tsx:214-231 | of two updates of one element, the later one alone decides the result |
| Elements.SelectionAfterUpdate | src/components/PresentationEditor.tsx:233-235 | the selection follows an update of the selected element; any other selection stays |
| Elements.Repositioned | src/components/PresentationEditor.tsx:244-251 | patching positions keeps the length of a slide's element list |
| Elements.ElementPositionUpdated | src/components/PresentationEditor.tsx:238-255 | no-op without a presentation; slide frames and presentation fields stay |
| Elements.ElementPositionUpdatedOnlyPosition | src/components/PresentationEditor.tsx:238-255 | only `positionX`/`positionY` of elements with that id change, on every slide |
| Elements.ElementPositionUpdatedAbsentIsNoop | src/components/PresentationEditor.tsx:238-255 | a position update for an id on no slide is a no-op |
| Elements.ElementPositionUpdatedLastWriteWins | src/components/PresentationEditor.tsx:238-255 | of two position updates of one id, the later one decides |
| Elements.ElementRemoved | src/components/PresentationEditor.tsx:257-268 | afterwards no slide holds that id; slide frames and presentation fields stay |
| Elements.ElementRemovedKeepsOthers | src/components/PresentationEditor.tsx:257-268 | the slide count is kept and each slide's elements are its old elements with exactly those carrying the id filtered out, so every other element stays on its slide, in its relative order |
| Elements.ElementRemovedAbsentIsNoop | src/components/PresentationEditor.tsx:257-268 | removing an id on no slide is a no-op |
| Elements.ElementRemovedIdempotent | src/components/PresentationEditor.tsx:257-268 | a repeated removal changes nothing more |
| Elements.FilterIgnoresRemovedId | src/components/PresentationEditor.tsx:264 | filtering out an id ignores every earlier change to elements with that id |
| Elements.ElementRemovedAfterAdded | src/components/PresentationEditor.tsx:199-268 | a removal after an add of the same element equals the removal alone |
| Elements.ElementRemovedAfterUpdated | src/components/PresentationEditor.tsx:214-268 | a removal after an update of the same element equals the removal alone |
| Elements.SelectionAfterRemove | src/components/PresentationEditor.tsx:270-272 | the selection is cleared exactly when the selected element is removed |
| Elements.MovePatch | src/components/PresentationEditor.tsx:483-503 | no-op without a presentation; slide frames and presentation fields stay |
| Elements.MovePatchOnlyOwningSlide | src/components/PresentationEditor.tsx:483-503 | only the owning slide is touched, and on it only the moved element's position changes |
| Elements.EchoAfterMoveIsNoop | src/components/PresentationEditor.tsx:477-508 | the broadcast echo of a move changes nothing after the optimistic patch, because both carry absolute coordinates |
| Intents.OrElse | src/components/PresentationEditor.tsx:22 | `a \|\| b` on strings: a missing or empty string gives way to the fallback |
| Intents.EditorNickname | src/components/PresentationEditor.tsx:22 | a non-empty navigation nickname wins; otherwise a non-empty stored nickname; otherwise "Guest"; the result is never empty |
| Intents.CreatorHint | src/components/PresentationEditor.tsx:23-25 | the hint holds iff the navigation flag is set or the stored marker is "true" |
| Intents.PersistCreatorMarker | src/components/PresentationEditor.tsx:27-32 | a creator records the marker for this presentation and no other key changes |
| Intents.CreatorHintSticky | src/components/PresentationEditor.tsx:22-32 | once recorded, the hint holds on every later visit without navigation state, and other presentations are unaffected |
| Intents.EffectiveRole | src/components/PresentationEditor.tsx:724 | the local role is the cached participant's role, or Viewer while none is cached |
| Intents.SlideControlsShown | src/components/PresentationEditor.tsx:767 | the slide controls are shown iff the local participant is the Creator |
| Intents.RemoveSlideEnabled | src/components/PresentationEditor.tsx:772 | removal is enabled iff at least two slides exist |
| Intents.ToolsShown | src/components/PresentationEditor.tsx:797 | the tools are shown iff the local participant is known and not a Viewer |
| Intents.RoleControlsShown | src/components/PresentationEditor.tsx:858-859 | role controls appear iff the local participant is the Creator and the row is another participant |
| Intents.PermissionsNested | src/components/PresentationEditor.tsx:724-726 | Creator permission implies Editor permission; a Viewer sees no control |
| Intents.EditorCannotChangeRoles | src/components/PresentationEditor.tsx:858-859 | an Editor gets the tools but no slide or role controls |
| Intents.InteractionRefused | src/components/PresentationEditor.tsx:454 | clicks and moves are refused iff the cached participant is a Viewer |
| Intents.MoveGuardAdmitsUnknownUser | src/components/PresentationEditor.tsx:478 | with no cached participant, moves are admitted although the tools are hidden |
| Intents.DefaultDraft | src/components/PresentationEditor.tsx:327-451 | a new element sits at (200, 200) with positive size, style "{}", on the given slide; an image carries its data and shapes carry no content |
| Intents.NewElementDraft | src/components/PresentationEditor.tsx:327-330 | a draft is made iff there is a slide under the cursor, and it targets that slide |
| Editor.AddElementError | src/components/PresentationEditor.tsx:327-451 | each kind has a non-empty failure message |
| Editor.EditorState.constructor | src/components/PresentationEditor.tsx:33-44 | the initial state: no presentation, empty roster, cursor 0, nothing selected, no error |
| Editor.EditorState.LoadSnapshot | src/components/PresentationEditor.tsx:75-82 | an empty fetch shows the load error and leaves the presentation alone; a snapshot replaces the presentation, and the cursor invariant then holds exactly when the cursor is 0 or inside the new slide list |
| Editor.EditorState.OnUserJoined | src/components/PresentationEditor.tsx:118-129 | the roster becomes `UserJoined` of the old roster |
| Editor.EditorState.OnUserLeft | src/components/PresentationEditor.tsx:131-138 | the roster becomes `UserLeft` of the old roster |
| Editor.EditorState.OnUserList | src/components/PresentationEditor.tsx:140-152 | the roster is replaced and the local participant resolved by nickname |
| Editor.EditorState.OnUserRoleChanged | src/components/PresentationEditor.tsx:154-173 | the roster and the cached local participant get the role change |
| Editor.EditorState.OnSlideAdded | src/components/PresentationEditor.tsx:175-183 | the presentation becomes `SlideAdded` of the old one, and the cursor invariant is kept |
| Editor.EditorState.OnSlideRemoved | src/components/PresentationEditor.tsx:185-197 | slides become `SlideRemoved`, the cursor follows the corrected rule, and the cursor invariant is kept |
| Editor.EditorState.OnElementAdded | src/components/PresentationEditor.tsx:199-212 | the presentation becomes `ElementAdded` of the old one, and the cursor invariant is kept |
| Editor.EditorState.OnElementUpdated | src/components/PresentationEditor.tsx:214-236 | the presentation and the selection get the update, and the cursor invariant is kept |
| Editor.EditorState.OnElementPositionUpdated | src/components/PresentationEditor.tsx:238-255 | the presentation gets the position update, and the cursor invariant is kept |
| Editor.EditorState.OnElementRemoved | src/components/PresentationEditor.tsx:257-273 | the presentation and the selection get the removal, and the cursor invariant is kept |
| Editor.EditorState.OnError | src/components/PresentationEditor.tsx:275-278 | the hub's error message is shown |
| Editor.EditorState.HandleAddSlide | src/components/PresentationEditor.tsx:299-312 | without a presentation nothing happens; otherwise it requests a slide ranked `NextSlideOrder`, and a failure shows "Failed to add slide" |
| Editor.EditorState.HandleRemoveSlide | src/components/PresentationEditor.tsx:314-325 | it requests removal of the slide under the cursor, when there is one; a failure shows an error; an out-of-range cursor is modelled as no request (see "## Left out") |
| Editor.EditorState.HandleAddElement | src/components/PresentationEditor.tsx:327-451 | it requests the default draft for the slide under the cursor, when there is one; a failure shows the kind's message |
| Editor.EditorState.HandleElementClick | src/components/PresentationEditor.tsx:453-461 | a Viewer changes nothing; otherwise the element is selected and a text element's content is loaded into the editor |
| Editor.EditorState.HandleElementMove | src/components/PresentationEditor.tsx:477-512 | a Viewer changes nothing and sends nothing; otherwise it applies the optimistic patch at old position + delta and sends those absolute coordinates |
| Editor.EditorState.HandleTextSave | src/components/PresentationEditor.tsx:514-530 | it sends the selection with the edited text; success clears the selection and the buffer, and failure keeps them and shows an error |
| Editor.EditorState.HandleDeleteElement | src/components/PresentationEditor.tsx:532-542 | it requests removal of the selected element; success deselects it |
| Editor.EditorState.HandleChangeUserRole | src/components/PresentationEditor.tsx:544-551 | the role change is always forwarded (no local permission check); a failure shows an error |
| Editor.EditorState.HandleChangeSlide | src/components/PresentationEditor.tsx:561-565 | the cursor follows `ChangeSlide`, and the cursor invariant is kept |
| Registry.Register | src/services/signalr.service.ts:190-195 | the list is created if absent and the callback appended at its end; other events are untouched |
| Registry.Unregister | src/services/signalr.service.ts:197-203 | exactly the entries identical to the callback go; other events are untouched; an unknown event is a no-op |
| Registry.UnregisterKeepsOrder | src/services/signalr.service.ts:197-203 | the remaining callbacks keep their order |
| Registry.UnregisterUnknownIsNoop | src/services/signalr.service.ts:197-203 | unsubscribing a callback never subscribed to that event is a no-op |
| Registry.RegisterThenUnregister | src/services/signalr.service.ts:190-203 | unsubscribing right after subscribing removes that callback's earlier duplicates too |
| Registry.RegisterAll | src/services/signalr.service.ts:190-195 | a series of subscriptions keeps every existing event |
| Registry.UnregisterAll | src/services/signalr.service.ts:197-203 | a series of unsubscriptions keeps the set of events |
| Registry.CleanupWithFreshClosuresIsNoop | src/services/signalr.service.ts:197-203 | unsubscribing callbacks that were never subscribed leaves the table exactly as it was |
| Registry.RegisterAllAt | src/services/signalr.service.ts:190-195 | subscribing to distinct events appends exactly the matching callback to each |
| Registry.RegisterAllKeeps | src/services/signalr.service.ts:190-195 | subscribing to other events leaves an event's list alone |
| Registry.UnregisterAllAt | src/services/signalr.service.ts:197-203 | unsubscribing from distinct events filters exactly the matching callback out of each |
| Registry.UnregisterAllKeeps | src/services/signalr.service.ts:197-203 | unsubscribing from other events leaves an event's list alone |
| Registry.UnregisterAllUndoesRegisterAll | src/services/signalr.service.ts:190-203 | unsubscribing the very callbacks just subscribed restores every event's list |
| Registry.RegisterAllTwice | src/services/signalr.service.ts:190-203 | two subscription rounds with an ineffective cleanup in between leave both callbacks on each event |
| Subscriptions.SetupEventListeners | src/components/PresentationEditor.tsx:117-283 | each of the eleven hub events gets exactly one new callback, appended; other events are untouched |
| Subscriptions.CleanupAsWritten | src/components/PresentationEditor.tsx:285-297 | as written, the cleanup hands `off` new closures, and so leaves the table unchanged |
| Subscriptions.Cleanup | src/components/PresentationEditor.tsx:285-297 | corrected: each event loses exactly the callback the setup gave it; other events are untouched |
| Subscriptions.RemountAccumulatesHandlers | src/components/PresentationEditor.tsx:49-59 | as written, mount, unmount and mount again leaves two of the component's callbacks on every hub event |
| Subscriptions.CleanupUndoesSetup | src/components/PresentationEditor.tsx:285-297 | with the corrected cleanup, unmounting restores every event's subscribers |
| Subscriptions.RemountKeepsOneHandlerEach | src/components/PresentationEditor.tsx:49-59 | with the corrected cleanup, a remount leaves exactly one of the component's callbacks per hub event |
| SignalR.SignalRService.constructor | src/services/signalr.service.ts:9-13 | the initial fields: no connection, no presentation, empty table, disconnected, no promise |
| SignalR.SignalRService.IsConnected | src/services/signalr.service.ts:78-81 | holds iff the service says connected and the hub library reports Connected |
| SignalR.SignalRService.Connect | src/services/signalr.service.ts:15-33 | single-flight: a memoised promise or an open connection changes nothing; otherwise a new connection starts connecting |
| SignalR.SignalRService.OnStartOutcome | src/services/signalr.service.ts:56-68 | success installs forwarding, sets connected and keeps the promise; failure sets error and clears the promise, so a later connect starts afresh |
| SignalR.SignalRService.OnReconnecting | src/services/signalr.service.ts:35-38 | the state becomes connecting and the service is no longer connected |
| SignalR.SignalRService.OnReconnected | src/services/signalr.service.ts:40-48 | the state becomes connected; exactly one non-creator rejoin is requested, and only when a presentation was joined |
| SignalR.SignalRService.OnClose | src/services/signalr.service.ts:50-54 | the state becomes disconnected and the promise is cleared |
| SignalR.SignalRService.EnsureConnected | src/services/signalr.service.ts:83-87 | when connected, or with a resolved promise, it succeeds and changes nothing; otherwise it succeeds iff start succeeds; success leaves the service connected with a resolved promise and forwarding on; failure leaves the error state, no promise and the closed connection object |
| SignalR.SignalRService.Invoke | src/services/signalr.service.ts:109-188 | `addSlide` fails with "not in a presentation" before a join; a request is sent iff the hub is open, with the joined id for `addSlide`; it passes iff sent and accepted |
| SignalR.SignalRService.InvokeHub | src/services/signalr.service.ts:127-132 | an invocation leaves iff the hub library's connection is open, and passes iff it also succeeds |
| SignalR.SignalRService.Call | src/services/signalr.service.ts:109-188 | a call fails with a connection error iff connecting fails, leaving no promise and the closed connection object; otherwise its result is `Invoke` in the new state, and a fresh connect leaves a resolved promise and forwarding on |
| SignalR.SignalRService.JoinPresentation | src/services/signalr.service.ts:89-107 | the join is sent iff the service is connected after connecting; only then is the presentation id recorded; otherwise it fails; the connection state after connecting is as for `Call` |
| SignalR.SignalRService.Disconnect | src/services/signalr.service.ts:280-298 | no-op without a connection; otherwise leave is sent only when connected, stop runs unless leave failed, and every field is reset whatever fails |
| SignalR.SignalRService.On | src/services/signalr.service.ts:190-195 | the table becomes `Register` of the old table |
| SignalR.SignalRService.Off | src/services/signalr.service.ts:197-203 | the table becomes `Unregister` of the old table |
| SignalR.SignalRService.TriggerEvent | src/services/signalr.service.ts:268-278 | every subscriber of the event runs, in subscription order, throwing ones included; an event without subscribers runs none |
| SignalR.SignalRService.OnHubMessage | src/services/signalr.service.ts:205-266 | one of the eleven hub events reaches the subscribers once forwarding is installed on the connection; any other message reaches none |

## Left out

- Rendering is not modelled: the JSX, `renderElement`, presentation mode (`isPresenting`), the
  connection-status text, and navigation on disconnect. They hold no logic beyond the gates above.
- Markdown rendering through `marked` is not modelled. It is an external library.
- The image upload's `FileReader` and DOM plumbing is not modelled. The data URL it produces is
  the `imageData` parameter of `HandleAddElement`.
- The mouse-listener plumbing of dragging is not modelled. The model starts from the delta
  that `handleElementMove` receives.
- The 5-second auto-clear of the error banner (`setTimeout`) is not modelled. It is timing.
- The confirmation dialog of `handleSlideClick` is not modelled. It is user input through
  `window.confirm`.
- The effect ordering of React, console logging and the `isConnected`/`isInitialized` flags
  are not modelled.
- Editor.EditorState.OnSlideRemoved: applies the corrected cursor rule
  `Slides.SlideRemovedCursorFixed`, not the code's rule, which is `Slides.SlideRemovedCursor`
  (see "## Findings"). The handlers are also registered once, so their closures keep the
  `presentation`, `currentSlideIndex` and `selectedElement` of the first render. The model
  applies the cursor and selection rules to the current state instead.
- The reconnect backoff schedule `[0, 1000, 2000, 5000, 10000]` is not modelled. It is library
  configuration and timing.
- Building the connection, and `start`/`stop`/`invoke` on the network, are outcome parameters.
  A failing `stop` is only logged, so it has no parameter.
- Asynchrony is reduced to sequential steps. `EnsureConnected` runs a pending connect to its end.
  Interleavings of two awaiting callers are not modelled.
- Callbacks from a connection object that `disconnect` has already dropped are not modelled.
  Such an object still runs when the leave failed and `stop` was skipped. The callback methods
  act on the current connection.
- The subscriber callbacks are opaque ids. What a subscriber does with the payload is the Editor
  handlers, which are not linked to the dispatch loop.
- `getConnectionState` is a plain read of `connectionState` and has no member of its own.
- JavaScript numbers are unbounded integers. Floating-point positions and `NaN` are not modelled.
- Writing the nickname to durable storage on mount is not modelled (`PresentationEditor.tsx:106-108`).
- The snapshot fetch goes through `src/services/api.service.ts`, which is not part of this model.
  Its result, a presentation or nothing, is the parameter of `LoadSnapshot`. The status line set
  beside the error is not modelled.
- `src/App.tsx` (routing) and `src/components/PresentationList.tsx` (list and creation form) are
  not part of this model.
- Elements.ElementAdded: last-write-wins per element is proved for update/update,
  position/position, remove-after-add and remove-after-update only. Repeated adds accumulate,
  as `ElementAddedTwiceDuplicates` shows.
- Slides.RemoveSlideTarget: with slides present and the cursor past the end, the code at
  `PresentationEditor.tsx:317` reads `.id` of `undefined` and throws outside its `try`, so the
  handler's promise rejects unhandled and no banner appears. The model returns no target, and
  `Editor.EditorState.HandleRemoveSlide` makes no request and leaves `errorMessage` unchanged;
  the unhandled rejection is not modelled. The cursor bug under "## Findings" can reach this state.
- After a reconnect the roster is only as current as the server's next `UserList` broadcast,
  which is an input here.

## Findings

| source | as written | input that shows it | evidently intended | confidence | as-written member | corrected member |
|---|---|---|---|---|---|---|
| src/components/PresentationEditor.tsx:194-196 | on a slide removal, the cursor moves only when the slide under it is removed | slides with ids [1, 2], cursor 1 (slide 2), slide 1 removed: the cursor stays 1 with one slide left, past the end | the cursor keeps showing the same slide, and moves back one, clamped at 0, only when that slide is removed | high (not executed) | Slides.SlideRemovedCursor, Slides.SlideRemovedCursorLeavesRange | Slides.SlideRemovedCursorFixed |
| src/components/PresentationEditor.tsx:285-297 | the cleanup passes a new empty closure to each `off`, so it unsubscribes nothing | mount with callbacks a, unmount, mount with callbacks b: each hub event has both a[k] and b[k] | unmounting removes the callbacks the mount subscribed | high (not executed) | Subscriptions.CleanupAsWritten, Subscriptions.RemountAccumulatesHandlers | Subscriptions.Cleanup, Subscriptions.CleanupUndoesSetup |
