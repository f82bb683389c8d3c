# Dream Hackers relay and phone client, in Dafny

Dream Hackers connects a phone web app to a VR headset through a small
WebSocket relay. On the phone, the user swipes 3D object cards: a right swipe
accepts an object, and the relay forwards it so the headset spawns it. This
project models two parts and proves what they promise:

- **the relay** (`server/server.js`). It keeps a set of sockets and two role
  slots, the phone and the VR headset, filled by `identify` messages. It routes
  `swipe_right` to the headset and answers the phone with `swipe_confirmed`.
  It passes `spawn_confirmed` back to the phone. It broadcasts any other
  message to every other open socket. It answers an undecodable frame with an
  error. It pings every open socket on a keep-alive tick.
  - `Relay` states this as functions on values.
  - `RelayServer.Server` is the same logic as an object. Its fields are updated
    in place, and each handler is proved to match the function.
  - Lemmas over whole runs of events say which socket a role slot holds.
- **the phone client's state** (`DreamHackersApp` in `web/app.js`).
  - `Gestures` holds the pure decisions: whether a released drag is a left
    swipe, a right swipe or a snap-back, when haptic pulses fire, and whether a
    reconnect is tried.
  - `PhoneApp.DreamHackersApp` is the class with the card index, the drag, the
    offline queue of accepted swipes and the reconnect counter.

Socket identity is a number (`ConnId`). The relay's JavaScript `Set` iterates
in insertion order, so it is a duplicate-free sequence. Whether a socket is
OPEN belongs to the transport, not to the server, so every event that tests
it carries an `open: ConnId -> bool` parameter. Messages are already decoded:
`Message` has one case per `type` the relay distinguishes, plus `Other` (any
other decoded value) and `Unparseable` (a frame whose handling throws before
anything is sent). Clock readings and pointer coordinates are integer
parameters.

What the relay does not do, and the model does not either:
- it sends no `vr_status` notice when a headset joins or leaves, and it does
  not answer a `ping` message with a `pong`;
- it does not drop a message of an unknown `type`: it broadcasts it to every
  other open socket.

Its error for a `swipe_right` with no headset reads "VR client not connected".

## Model

| member | source | states |
|---|---|---|
| Relay.Register | server/server.js:46 | adding a socket to the set adds exactly that socket, keeps the others in order and never duplicates one |
| Relay.Unregister | server/server.js:131 | deleting a socket removes exactly that one, keeps the set duplicate-free and is a no-op for an absent socket |
| Relay.OpenExcept | server/server.js:33-39 | the broadcast recipients are exactly the sockets in the set that are open and are not the sender |
| Relay.VisitedIsAddressed | server/server.js:33-39 | visiting the set one socket at a time writes the frame to exactly the recipients, in set order |
| Relay.Connect | server/server.js:42-53 | a new socket joins the set, the role slots are untouched, and the only frame is the welcome to that socket |
| Relay.Receive | server/server.js:56-126 | routing: identify fills only the named slot; swipe_right goes to an open VR socket, then a confirmation goes to an open phone, or an error goes to the sender; spawn_confirmed goes only to an open phone; other types go, unchanged, to exactly the other open sockets of the set, each once and in set order; an undecodable frame gets an error; only identify changes the registry |
| Relay.Close | server/server.js:129-141 | a closing socket leaves the set, and a slot is cleared only when it holds that very socket |
| Relay.KeepAlive | server/server.js:174-180 | a tick pings exactly the open sockets of the set, each once and in set order, and changes no state |
| Relay.RunKeepsNoDups | server/server.js:14 | whatever events arrive, no socket is listed twice |
| Relay.StepSlot | server/server.js:62-73 | a single event sets a slot to an identifying sender, clears it on its holder's close, or leaves it alone |
| Relay.SlotIsLastClaimant | server/server.js:62-73 | after any run of events, a role slot holds x exactly when x was the last to identify for that role and has not closed since, or x held it at the start and nothing disturbed it |
| Relay.StepKeepsSlotsInSet | server/server.js:129-141 | when frames come only from members, one event leaves each role slot empty or holding a socket of the set |
| Relay.RunKeepsSlotsInSet | server/server.js:14-16 | over any run whose frames come from members, a role slot never holds a socket that has left the set |
| Relay.ReplacedPhoneSurvivesOldClose | server/server.js:133-136 | when a newer phone replaces an older one, the older one's close leaves the newer phone in the slot |
| RelayServer.Server.constructor | server/server.js:14-16 | the server starts with an empty set and empty slots |
| RelayServer.Server.OnConnect | server/server.js:42-53 | the in-place handler does what Relay.Connect says |
| RelayServer.Server.Broadcast | server/server.js:33-39 | the forEach loop writes the frame to exactly the open sockets other than the sender, in set order, and to each socket once |
| RelayServer.Server.OnMessage | server/server.js:56-126 | the in-place handler does what Relay.Receive says |
| RelayServer.Server.OnClose | server/server.js:129-141 | the in-place handler does what Relay.Close says |
| RelayServer.Server.PingAll | server/server.js:174-180 | the keep-alive loop pings exactly what Relay.KeepAlive says |
| RelayServer.Server.Handle | server/server.js:42-141 | any single event moves the server as Relay.Step says |
| RelayServer.Serve | server/server.js:14-16 | a server driven through a run of events ends in the state Relay.Run gives and has written exactly its frames |
| Gestures.Decide | web/app.js:666-693 | a release is a left (right) swipe exactly when the drag went left (right) and was either at least 75 px long or at least 30 px at 200 px/s or more; under 30 px it is always a snap-back |
| Gestures.VelocityTestAgrees | web/app.js:675 | for a positive duration, the integer test equals the source's speed test `abs / (ms / 1000) >= 200` computed in exact arithmetic |
| Gestures.DecideIsSymmetric | web/app.js:683-689 | mirroring a drag mirrors the decision |
| Gestures.DecideIsMonotone | web/app.js:680-681 | an accepted swipe stays accepted, in the same direction, when it goes further or takes less time |
| Gestures.HapticStep | web/app.js:539-553 | a strong pulse fires at 75 px or more unless the last one was strong; a light one fires in 50-74 px unless the last one was light; under 50 px the level resets and nothing fires |
| Gestures.HapticTrace | web/app.js:539-553 | one pulse-or-nothing per pointer position |
| Gestures.HeldUntilBelowLight | web/app.js:544-552 | after a pulse, the same level fires again before any other pulse only if the drag first went back under 50 px |
| Gestures.NoRepeatWithoutReset | web/app.js:544-552 | between two consecutive pulses of the same level, the drag went back under 50 px |
| Gestures.NextAttempt | web/app.js:986-995 | the counter gives up at 5 attempts, and otherwise counts exactly one more |
| Gestures.ReconnectChainLength | web/app.js:986-995 | when every retry fails, a fresh counter schedules exactly five reconnects and then stops |
| PhoneApp.DreamHackersApp.constructor | web/app.js:377-395 | the client starts at card 0, not connected, with an empty queue and a zero counter |
| PhoneApp.DreamHackersApp.RenderCard | web/app.js:1133-1138 | the end-of-deck panel shows exactly when the index is past the deck, and otherwise the card under the index |
| PhoneApp.DreamHackersApp.Restart | web/app.js:1188-1197 | the index goes back to 0 and the first card (or the end panel) is shown |
| PhoneApp.DreamHackersApp.SwipeLeft | web/app.js:802-821 | a rejection is sent only when the socket is open, then the index moves on by one and the next card is rendered; past the deck nothing changes |
| PhoneApp.DreamHackersApp.SwipeRight | web/app.js:823-842 | an acceptance is sent, or queued while offline, then the index moves on by one and the next card is rendered; past the deck nothing changes |
| PhoneApp.DreamHackersApp.SendSwipeRight | web/app.js:854-870 | an acceptance is sent on an open socket, or else appended to the queue; it is never lost |
| PhoneApp.DreamHackersApp.SendSwipeLeft | web/app.js:872-883 | a rejection is sent on an open socket, or else dropped, never queued |
| PhoneApp.DreamHackersApp.FlushSwipeQueue | web/app.js:885-899 | the frames sent followed by those left over are exactly the old queue, in order; an open socket drains the queue and a closed one sends nothing |
| PhoneApp.DreamHackersApp.OnOpen | web/app.js:930-949 | an open resets the counter and identifies as phone; a reconnect then flushes the whole queue after the identify, and a first connection shows the app screen |
| PhoneApp.DreamHackersApp.OnClose | web/app.js:964-975 | a close schedules a reconnect exactly when the app screen is showing and fewer than 5 attempts were made |
| PhoneApp.DreamHackersApp.AttemptReconnect | web/app.js:986-1007 | the counter moves as Gestures.NextAttempt says, and a reconnect is scheduled exactly when it does not give up |
| PhoneApp.DreamHackersApp.TriggerHapticFeedback | web/app.js:539-553 | the level and the pulse fired are those of Gestures.HapticStep |
| PhoneApp.DreamHackersApp.HandleDoubleTap | web/app.js:762-773 | a double tap plays a strong pulse and accepts the current card |
| PhoneApp.DreamHackersApp.HandlePointerStart | web/app.js:559-588 | a press off a card does nothing; a second tap within 300 ms is a double tap and clears the tap time; otherwise a drag starts at the pointer with the haptic level reset |
| PhoneApp.DreamHackersApp.HandlePointerMove | web/app.js:590-605 | during a drag, the offset is the pointer minus the start and haptics follow Gestures.HapticStep; otherwise nothing changes |
| PhoneApp.DreamHackersApp.EvaluateSwipe | web/app.js:666-693 | the decision is Gestures.Decide on the offset and the elapsed time; a swipe has SwipeLeft's or SwipeRight's effect, and the offset resets unless the swipe aborted past the deck |
| PhoneApp.DreamHackersApp.HandlePointerEnd | web/app.js:607-611 | releasing ends the drag and evaluates it only if a drag was in progress |

## Left out

- JSON encoding and decoding, the `ws` library, HTTP and the network: frames are values of `Message`/`Frame` and `Outgoing`. A decoded number, string, boolean or array has no `type` and is broadcast, so it is `Other`. `Unparseable` covers three cases, each answered with "Invalid message format": text `JSON.parse` rejects; the value `null`, on which reading `type` throws; and a `swipe_right` or `spawn_confirmed` whose `objectId` the log line (server/server.js:77, 106) cannot turn into a string.
- Timestamps in server frames (`Date.now()`), console logging, `ws.clientType` (used only in a log line), `getLocalIP` and the start-up banner: they do not affect routing.
- The relay's `error` handlers only log. `ws` library errors are not part of this model.
- The keep-alive interval is one `Tick` event; the 30-second period is not modelled.
- Timers on the phone (`setTimeout`, `requestAnimationFrame`) fire at once. The 400 ms card transition, the 150 ms double-tap delay and the reconnect back-off `1000 * 1.5^(n-1)` ms (a floating-point delay) are not modelled. So no pointer event interleaves with a pending timer.
- PhoneApp.DreamHackersApp.EvaluateSwipe: returns early when no card has the `swiping` class. That is a DOM check and is not modelled.
- Gestures.Decide: the source computes the speed in double-precision floating point. The model tests it in exact integer arithmetic. At an exact 200 px/s tie the double quotient can round below 200: 34 px in 170 ms, 55 px in 275 ms, 56 px in 280 ms and 68 px in 340 ms give 199.99999999999997. The source snaps these back; the model swipes.
- Gestures.VelocityTestAgrees: proves the speed test equal to the product test in exact real arithmetic only, not in the source's double arithmetic. It differs on the four pairs listed for Gestures.Decide.
- `ModelViewer`, `SwipeAudioManager`, card HTML, indicators, tints, the button highlight and every other DOM or audio effect.
- `loadObjects`: the constructor takes the object ids it produces. Objects are their `id` strings.
- `connect` and `connectToServer`: reading the address field and opening a socket. The new socket's life is modelled by `OnOpen`/`OnClose`. `onerror` and `handleDisconnect` only touch the UI and `isConnected`, which nothing reads.
- `handleMessage` on the phone: it logs `connection_established` and `swipe_confirmed`, plays a haptic and shows a notice on `spawn_confirmed`, and plays a haptic on `error`. It changes no modelled state.
- `triggerButtonSwipe`, behind the accept and reject buttons: a strong haptic, then the same `SwipeLeft`/`SwipeRight`, skipped while a card is already animating (a DOM check).
- The initial visibility of the app screen is set in web/index.html, which is not part of this model. `inAppScreen` starts false.
- Out-of-range card index: `obj.id` on an undefined object throws. That is modelled as "nothing changes", with the rest of `evaluateSwipe` skipped.
- The Unity client scripts under `Dream Hackers/Assets/Scripts` are not part of this model.
