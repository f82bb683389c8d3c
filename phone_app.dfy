/** The non-visual state of `DreamHackersApp` in web/app.js: the card index,
    the drag in progress, the haptic hysteresis, the offline queue of accepted
    swipes and the reconnect counter. Fields are updated in place as in the
    source; what the socket carries is appended to `sent` and the haptic
    patterns played to `haptics`. Timers (`setTimeout`, `requestAnimationFrame`)
    fire at once. */
module PhoneApp {
  import opened Options
  import opened Gestures

  type ObjectId = string

  /** A frame the phone writes to its socket, with its `timestamp`. */
  datatype Outgoing =
    | IdentifyPhone(timestamp: int)
    | SwipeRightMsg(objectId: ObjectId, timestamp: int)
    | SwipeLeftMsg(objectId: ObjectId, timestamp: int)

  /** What the screen shows: the connection form, the card of an object, or
      the end-of-deck panel. */
  datatype View = ConnectionScreen | CardOf(objectId: ObjectId) | NoMoreCards

  /** The frame a completed swipe sends. */
  function SwipeMessage(d: Decision, objectId: ObjectId, now: int): Outgoing
    requires d != SnapBack
  {
    if d == Left then SwipeLeftMsg(objectId, now) else SwipeRightMsg(objectId, now)
  }

  class DreamHackersApp {
    /** The ids of the loaded objects, in deck order. */
    const objects: seq<ObjectId>
    var currentIndex: nat
    var view: View
    /** `this.ws && this.ws.readyState === WebSocket.OPEN` */
    var socketOpen: bool
    /** The app screen is displayed (set once the first connection opens). */
    var inAppScreen: bool
    var isDragging: bool
    var startX: int
    var startY: int
    var currentX: int
    var currentY: int
    var swipeStartTime: int
    var lastHapticThreshold: Option<Haptic>
    var swipeQueue: seq<Outgoing>
    var reconnectAttempts: nat
    var lastTapTime: int
    /** Frames written to the socket, in order. */
    var sent: seq<Outgoing>
    /** Haptic patterns played, in order. */
    var haptics: seq<Haptic>

    ghost predicate Valid()
      reads this
    {
      && reconnectAttempts <= MaxReconnectAttempts
      && lastHapticThreshold != Some(Success) && lastHapticThreshold != Some(Failure)
      && forall k :: 0 <= k < |swipeQueue| ==> swipeQueue[k].SwipeRightMsg?
    }

    /** `renderCard`'s end test: the end-of-deck panel exactly when the index
        has run past the deck, otherwise the card at the index. */
    ghost predicate Rendered()
      reads this
    {
      && (view == NoMoreCards <==> currentIndex >= |objects|)
      && (currentIndex < |objects| ==> view == CardOf(objects[currentIndex]))
    }

    /** The effect of `swipeLeft` / `swipeRight` (`d` tells which): the object
        under the index is sent (an accept is queued while offline, a rejection
        dropped), the index moves on by one and the next card is rendered.
        Past the end of the deck, reading the object's id throws, and nothing
        changes. */
    twostate predicate Swiped(d: Decision, now: int)
      requires d != SnapBack
      reads this
    {
      var i := old(currentIndex);
      if i < |objects| then
        && currentIndex == i + 1
        && Rendered()
        && (socketOpen ==> sent == old(sent) + [SwipeMessage(d, objects[i], now)] && swipeQueue == old(swipeQueue))
        && (!socketOpen ==>
              sent == old(sent)
              && swipeQueue == old(swipeQueue) + (if d == Right then [SwipeRightMsg(objects[i], now)] else []))
      else
        currentIndex == i && view == old(view) && sent == old(sent) && swipeQueue == old(swipeQueue)
    }

    /** The effect of `evaluateSwipe` for a drag released at time `now`. */
    twostate predicate Evaluated(now: int)
      reads this
    {
      var d := Decide(old(currentX), now - old(swipeStartTime));
      && (d == SnapBack ==>
            currentIndex == old(currentIndex) && view == old(view)
            && sent == old(sent) && swipeQueue == old(swipeQueue))
      && (d != SnapBack ==> Swiped(d, now))
      && (d == SnapBack || old(currentIndex) < |objects| ==> currentX == 0 && currentY == 0)
      && (d != SnapBack && old(currentIndex) >= |objects| ==>
            currentX == old(currentX) && currentY == old(currentY))
    }

    /** The constructor, with the object list `loadObjects` produced. */
    constructor (objects: seq<ObjectId>)
      ensures Valid() && this.objects == objects
      ensures currentIndex == 0 && view == ConnectionScreen && !inAppScreen
      ensures !socketOpen && reconnectAttempts == 0 && swipeQueue == [] && sent == []
      ensures !isDragging && currentX == 0 && currentY == 0 && lastTapTime == 0
      ensures lastHapticThreshold == None && haptics == []
    {
      this.objects := objects;
      currentIndex, view, socketOpen, inAppScreen := 0, ConnectionScreen, false, false;
      isDragging, startX, startY, currentX, currentY := false, 0, 0, 0, 0;
      swipeStartTime, lastHapticThreshold, swipeQueue := 0, None, [];
      reconnectAttempts, lastTapTime, sent, haptics := 0, 0, [], [];
    }

    // -------------------------------------------------------------------------
    // Cards

    method RenderCard()
      modifies this`view
      ensures Rendered()
    {
      if currentIndex >= |objects| {
        view := NoMoreCards;
        return;
      }
      view := CardOf(objects[currentIndex]);
    }

    method Restart()
      modifies this`currentIndex, this`view
      ensures currentIndex == 0 && Rendered()
    {
      currentIndex := 0;
      RenderCard();
    }

    method SwipeLeft(now: int) returns (done: bool)
      requires Valid()
      modifies this`sent, this`currentIndex, this`view
      ensures Valid()
      ensures done <==> old(currentIndex) < |objects|
      ensures Swiped(Left, now)
    {
      if currentIndex >= |objects| {
        return false;
      }
      SendSwipeLeft(objects[currentIndex], now);
      currentIndex := currentIndex + 1;
      RenderCard();
      done := true;
    }

    method SwipeRight(now: int) returns (done: bool)
      requires Valid()
      modifies this`sent, this`swipeQueue, this`currentIndex, this`view
      ensures Valid()
      ensures done <==> old(currentIndex) < |objects|
      ensures Swiped(Right, now)
    {
      if currentIndex >= |objects| {
        return false;
      }
      SendSwipeRight(objects[currentIndex], now);
      currentIndex := currentIndex + 1;
      RenderCard();
      done := true;
    }

    // -------------------------------------------------------------------------
    // Sending and the offline queue

    method SendSwipeRight(objectId: ObjectId, now: int)
      requires Valid()
      modifies this`sent, this`swipeQueue
      ensures Valid()
      ensures socketOpen ==> sent == old(sent) + [SwipeRightMsg(objectId, now)] && swipeQueue == old(swipeQueue)
      ensures !socketOpen ==> swipeQueue == old(swipeQueue) + [SwipeRightMsg(objectId, now)] && sent == old(sent)
    {
      var message := SwipeRightMsg(objectId, now);
      if socketOpen {
        sent := sent + [message];
      } else {
        swipeQueue := swipeQueue + [message];
      }
    }

    method SendSwipeLeft(objectId: ObjectId, now: int)
      modifies this`sent
      ensures socketOpen ==> sent == old(sent) + [SwipeLeftMsg(objectId, now)]
      ensures !socketOpen ==> sent == old(sent)
    {
      var message := SwipeLeftMsg(objectId, now);
      if socketOpen {
        sent := sent + [message];
      }
    }

    /** Sends queued accepts oldest first while the socket is open. What was
        sent followed by what is left is the old queue; since nothing in the
        loop closes the socket, an open socket drains it and a closed one
        sends nothing. */
    method FlushSwipeQueue()
      requires Valid()
      modifies this`sent, this`swipeQueue
      ensures Valid()
      ensures |old(sent)| <= |sent| && sent[..|old(sent)|] == old(sent)
      ensures sent[|old(sent)|..] + swipeQueue == old(swipeQueue)
      ensures socketOpen ==> swipeQueue == [] && sent == old(sent) + old(swipeQueue)
      ensures !socketOpen ==> swipeQueue == old(swipeQueue) && sent == old(sent)
    {
      if |swipeQueue| == 0 {
        return;
      }
      while |swipeQueue| > 0 && socketOpen
        invariant Valid()
        invariant |old(sent)| <= |sent| && sent[..|old(sent)|] == old(sent)
        invariant sent[|old(sent)|..] + swipeQueue == old(swipeQueue)
        invariant !socketOpen ==> swipeQueue == old(swipeQueue) && sent == old(sent)
        decreases |swipeQueue|
      {
        var message := swipeQueue[0];
        swipeQueue := swipeQueue[1..];
        sent := sent + [message];
      }
    }

    // -------------------------------------------------------------------------
    // Connection

    /** `onopen` of a socket made by `connectToServer(serverIP, isReconnect)`. */
    method OnOpen(isReconnect: bool, now: int)
      requires Valid()
      modifies this`socketOpen, this`reconnectAttempts, this`sent, this`swipeQueue, this`inAppScreen, this`view
      ensures Valid()
      ensures socketOpen && reconnectAttempts == 0
      ensures isReconnect ==>
                sent == old(sent) + [IdentifyPhone(now)] + old(swipeQueue) && swipeQueue == []
                && inAppScreen == old(inAppScreen) && view == old(view)
      ensures !isReconnect ==>
                sent == old(sent) + [IdentifyPhone(now)] && swipeQueue == old(swipeQueue)
                && inAppScreen && Rendered()
    {
      socketOpen := true;
      reconnectAttempts := 0;
      sent := sent + [IdentifyPhone(now)];
      if isReconnect {
        FlushSwipeQueue();
      } else {
        inAppScreen := true;
        RenderCard();
      }
    }

    /** `onclose`: retry only from the app screen. */
    method OnClose() returns (scheduled: bool)
      requires Valid()
      modifies this`socketOpen, this`reconnectAttempts
      ensures Valid()
      ensures !socketOpen
      ensures scheduled <==> inAppScreen && old(reconnectAttempts) < MaxReconnectAttempts
      ensures reconnectAttempts == if scheduled then old(reconnectAttempts) + 1 else old(reconnectAttempts)
    {
      socketOpen := false;
      scheduled := false;
      if inAppScreen {
        scheduled := AttemptReconnect();
      }
    }

    /** `attemptReconnect`, without the back-off delay. */
    method AttemptReconnect() returns (scheduled: bool)
      requires Valid()
      modifies this`reconnectAttempts
      ensures Valid()
      ensures scheduled <==> NextAttempt(old(reconnectAttempts)).Some?
      ensures scheduled ==> reconnectAttempts == NextAttempt(old(reconnectAttempts)).value
      ensures !scheduled ==> reconnectAttempts == old(reconnectAttempts)
    {
      if reconnectAttempts >= MaxReconnectAttempts {
        return false;
      }
      reconnectAttempts := reconnectAttempts + 1;
      scheduled := true;
    }

    // -------------------------------------------------------------------------
    // Pointer handling

    method TriggerHapticFeedback()
      requires Valid()
      modifies this`lastHapticThreshold, this`haptics
      ensures Valid()
      ensures var u := HapticStep(old(lastHapticThreshold), currentX);
              lastHapticThreshold == u.last
              && haptics == old(haptics) + (if u.fired.Some? then [u.fired.value] else [])
    {
      var absX := Abs(currentX);
      if absX >= HapticStrongThreshold && lastHapticThreshold != Some(Strong) {
        haptics := haptics + [Strong];
        lastHapticThreshold := Some(Strong);
      } else if absX >= HapticLightThreshold && absX < HapticStrongThreshold && lastHapticThreshold != Some(Light) {
        haptics := haptics + [Light];
        lastHapticThreshold := Some(Light);
      } else if absX < HapticLightThreshold {
        lastHapticThreshold := None;
      }
    }

    /** A second tap within the delay: a strong pulse, then the card is
        accepted (after 150 ms in the source). */
    method HandleDoubleTap(now: int)
      requires Valid()
      modifies this`haptics, this`sent, this`swipeQueue, this`currentIndex, this`view
      ensures Valid()
      ensures haptics == old(haptics) + [Strong]
      ensures Swiped(Right, now)
    {
      haptics := haptics + [Strong];
      var _ := SwipeRight(now);
    }

    /** `handlePointerStart`: `onCard` says whether the target is a card. */
    method HandlePointerStart(clientX: int, clientY: int, onCard: bool, now: int) returns (started: bool)
      requires Valid()
      modifies this`lastTapTime, this`isDragging, this`startX, this`startY, this`swipeStartTime
      modifies this`lastHapticThreshold, this`haptics, this`sent, this`swipeQueue, this`currentIndex, this`view
      ensures Valid()
      ensures started <==> onCard && now - old(lastTapTime) >= DoubleTapDelay
      ensures !onCard ==> unchanged(this)
      ensures onCard && now - old(lastTapTime) < DoubleTapDelay ==>
                && lastTapTime == 0 && isDragging == old(isDragging)
                && haptics == old(haptics) + [Strong] && Swiped(Right, now)
                && lastHapticThreshold == old(lastHapticThreshold)
                && startX == old(startX) && startY == old(startY) && swipeStartTime == old(swipeStartTime)
      ensures started ==>
                && lastTapTime == now && isDragging && startX == clientX && startY == clientY
                && swipeStartTime == now && lastHapticThreshold == None
                && currentIndex == old(currentIndex) && sent == old(sent) && swipeQueue == old(swipeQueue)
                && view == old(view) && haptics == old(haptics)
    {
      if !onCard {
        return false;
      }
      var timeSinceLastTap := now - lastTapTime;
      if timeSinceLastTap < DoubleTapDelay {
        HandleDoubleTap(now);
        lastTapTime := 0;
        return false;
      }
      lastTapTime := now;
      isDragging := true;
      startX := clientX;
      startY := clientY;
      swipeStartTime := now;
      lastHapticThreshold := None;
      started := true;
    }

    /** `handlePointerMove`, with its animation frame run at once. */
    method HandlePointerMove(clientX: int, clientY: int)
      requires Valid()
      modifies this`currentX, this`currentY, this`lastHapticThreshold, this`haptics
      ensures Valid()
      ensures !isDragging ==> unchanged(this)
      ensures isDragging ==>
                && currentX == clientX - startX && currentY == clientY - startY
                && var u := HapticStep(old(lastHapticThreshold), currentX);
                   lastHapticThreshold == u.last
                   && haptics == old(haptics) + (if u.fired.Some? then [u.fired.value] else [])
    {
      if !isDragging {
        return;
      }
      currentX := clientX - startX;
      currentY := clientY - startY;
      TriggerHapticFeedback();
    }

    method EvaluateSwipe(now: int)
      requires Valid()
      modifies this`sent, this`swipeQueue, this`currentIndex, this`view, this`currentX, this`currentY
      ensures Valid()
      ensures Evaluated(now)
    {
      var distance := currentX;
      var elapsedTime := now - swipeStartTime;
      var decision := Decide(distance, elapsedTime);
      var completed := true;
      if decision == Left {
        completed := SwipeLeft(now);
      } else if decision == Right {
        completed := SwipeRight(now);
      }
      if completed {
        currentX := 0;
        currentY := 0;
      }
    }

    method HandlePointerEnd(now: int)
      requires Valid()
      modifies this`isDragging, this`sent, this`swipeQueue, this`currentIndex, this`view, this`currentX, this`currentY
      ensures Valid()
      ensures !isDragging
      ensures !old(isDragging) ==> unchanged(this)
      ensures old(isDragging) ==> Evaluated(now)
    {
      if !isDragging {
        return;
      }
      isDragging := false;
      EvaluateSwipe(now);
    }
  }
}
