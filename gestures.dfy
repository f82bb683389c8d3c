/** The decisions of the phone client in web/app.js that are plain comparisons
    on pixels and milliseconds (both modelled as integers): whether a released
    drag is a swipe, when a drag fires a haptic pulse, and whether a lost
    connection is retried. The class in PhoneApp calls these. */
module Gestures {
  import opened Options

  // DreamHackersApp.CONFIG
  const SwipeThreshold := 75
  const VelocityThreshold := 200
  const MinSwipeDistance := 30
  const DoubleTapDelay := 300
  const HapticLightThreshold := 50
  const HapticStrongThreshold := 75
  const MaxReconnectAttempts := 5

  function Abs(x: int): nat {
    if x < 0 then -x else x
  }

  // ---------------------------------------------------------------------------
  // Releasing a drag

  datatype Decision = Left | Right | SnapBack

  /** `meetsVelocityThreshold`: at least 200 px/s over at least 30 px. The
      source divides, `absDistance / (elapsedTime / 1000) >= 200`; in exact
      arithmetic the product form below is the same test (see
      VelocityTestAgrees). A zero elapsed time gives an infinite speed, which
      passes, and a negative one a negative speed, which never does. */
  predicate MeetsVelocity(absDistance: nat, elapsed: int) {
    && absDistance >= MinSwipeDistance
    && elapsed >= 0
    && absDistance * 1000 >= VelocityThreshold * elapsed
  }

  /** `meetsDistanceThreshold || meetsVelocityThreshold` */
  predicate FarOrFast(absDistance: nat, elapsed: int) {
    absDistance >= SwipeThreshold || MeetsVelocity(absDistance, elapsed)
  }

  /** The branch `evaluateSwipe` takes for a drag of `distance` px along x
      that lasted `elapsed` ms. */
  function Decide(distance: int, elapsed: int): (d: Decision)
    ensures d == Left <==> distance < 0 && FarOrFast(Abs(distance), elapsed)
    ensures d == Right <==> distance > 0 && FarOrFast(Abs(distance), elapsed)
    ensures distance == 0 ==> d == SnapBack
    ensures Abs(distance) < MinSwipeDistance ==> d == SnapBack
    ensures Abs(distance) >= SwipeThreshold ==> d != SnapBack
  {
    if distance < 0 && FarOrFast(Abs(distance), elapsed) then Left
    else if distance > 0 && FarOrFast(Abs(distance), elapsed) then Right
    else SnapBack
  }

  /** For a positive duration, the product test is the source's speed test
      computed in exact arithmetic (not in the source's double arithmetic). */
  lemma VelocityTestAgrees(absDistance: nat, elapsed: int)
    requires elapsed > 0
    ensures (absDistance as real) / ((elapsed as real) / 1000.0) >= VelocityThreshold as real
        <==> absDistance * 1000 >= VelocityThreshold * elapsed
  {
  }

  function Mirror(d: Decision): Decision {
    match d
    case Left => Right
    case Right => Left
    case SnapBack => SnapBack
  }

  /** A drag to the left is judged exactly as the same drag to the right. */
  lemma DecideIsSymmetric(distance: int, elapsed: int)
    ensures Decide(-distance, elapsed) == Mirror(Decide(distance, elapsed))
  {
  }

  /** A swipe that is accepted stays accepted when it goes further in the same
      direction, or takes less time. */
  lemma DecideIsMonotone(distance: int, elapsed: int, further: int, sooner: int)
    requires Decide(distance, elapsed) != SnapBack
    requires (distance < 0 && further <= distance) || (distance > 0 && further >= distance)
    requires 0 <= sooner <= elapsed
    ensures Decide(further, sooner) == Decide(distance, elapsed)
  {
  }

  // ---------------------------------------------------------------------------
  // Haptic pulses while dragging

  /** The patterns of `triggerHaptic`: 'light', 'strong', 'success', 'error'. */
  datatype Haptic = Light | Strong | Success | Failure

  /** The new `lastHapticThreshold`, and the pulse fired if any. */
  datatype HapticUpdate = HapticUpdate(last: Option<Haptic>, fired: Option<Haptic>)

  /** `triggerHapticFeedback` at horizontal offset `currentX`. */
  function HapticStep(last: Option<Haptic>, currentX: int): (u: HapticUpdate)
    ensures u.fired == Some(Strong) <==> Abs(currentX) >= HapticStrongThreshold && last != Some(Strong)
    ensures u.fired == Some(Light)
        <==> HapticLightThreshold <= Abs(currentX) < HapticStrongThreshold && last != Some(Light)
    ensures u.fired.Some? ==> (u.fired == Some(Strong) || u.fired == Some(Light)) && u.last == u.fired && last != u.fired
    ensures Abs(currentX) < HapticLightThreshold ==> u == HapticUpdate(None, None)
    ensures u.fired.None? && Abs(currentX) >= HapticLightThreshold ==> u.last == last
  {
    var absX := Abs(currentX);
    if absX >= HapticStrongThreshold && last != Some(Strong) then HapticUpdate(Some(Strong), Some(Strong))
    else if absX >= HapticLightThreshold && absX < HapticStrongThreshold && last != Some(Light) then
      HapticUpdate(Some(Light), Some(Light))
    else if absX < HapticLightThreshold then HapticUpdate(None, None)
    else HapticUpdate(last, None)
  }

  /** The pulse fired (or not) at each successive pointer position of a drag. */
  function HapticTrace(last: Option<Haptic>, xs: seq<int>): (fired: seq<Option<Haptic>>)
    ensures |fired| == |xs|
    decreases |xs|
  {
    if xs == [] then []
    else
      var u := HapticStep(last, xs[0]);
      [u.fired] + HapticTrace(u.last, xs[1..])
  }

  /** The trace of a non-empty drag: the first step, then the trace of the
      rest from the level that step left. */
  lemma TraceUnfolds(last: Option<Haptic>, xs: seq<int>)
    requires xs != []
    ensures HapticTrace(last, xs)[0] == HapticStep(last, xs[0]).fired
    ensures forall k :: 0 <= k < |xs| - 1 ==>
              HapticTrace(last, xs)[k + 1] == HapticTrace(HapticStep(last, xs[0]).last, xs[1..])[k]
  {
  }

  /** Once `l` has fired, it cannot fire again before the drag comes back
      inside the light threshold, unless some other pulse fires first. */
  lemma {:induction false} HeldUntilBelowLight(l: Haptic, xs: seq<int>, j: nat)
    requires j < |xs|
    requires HapticTrace(Some(l), xs)[j] == Some(l)
    requires forall k :: 0 <= k < j ==> HapticTrace(Some(l), xs)[k] == None
    ensures exists k :: 0 <= k < j && Abs(xs[k]) < HapticLightThreshold
    decreases j
  {
    TraceUnfolds(Some(l), xs);
    if j > 0 && Abs(xs[0]) >= HapticLightThreshold {
      assert HapticTrace(Some(l), xs)[0] == None;
      HeldUntilBelowLight(l, xs[1..], j - 1);
      var k :| 0 <= k < j - 1 && Abs(xs[1..][k]) < HapticLightThreshold;
      assert xs[k + 1] == xs[1..][k];
    }
  }

  /** Hysteresis: between two consecutive pulses of the same level the drag
      went back inside the light threshold. */
  lemma {:induction false} NoRepeatWithoutReset(last: Option<Haptic>, xs: seq<int>, i: nat, j: nat)
    requires i < j < |xs|
    requires HapticTrace(last, xs)[i].Some? && HapticTrace(last, xs)[j] == HapticTrace(last, xs)[i]
    requires forall k :: i < k < j ==> HapticTrace(last, xs)[k] == None
    ensures exists k :: i < k < j && Abs(xs[k]) < HapticLightThreshold
    decreases i
  {
    var u := HapticStep(last, xs[0]);
    TraceUnfolds(last, xs);
    var k;
    if i > 0 {
      NoRepeatWithoutReset(u.last, xs[1..], i - 1, j - 1);
      k :| i - 1 < k < j - 1 && Abs(xs[1..][k]) < HapticLightThreshold;
    } else {
      assert u.fired.Some? && u.last == u.fired;
      HeldUntilBelowLight(u.fired.value, xs[1..], j - 1);
      k :| 0 <= k < j - 1 && Abs(xs[1..][k]) < HapticLightThreshold;
    }
    assert xs[k + 1] == xs[1..][k];
  }

  // ---------------------------------------------------------------------------
  // Reconnecting

  /** `attemptReconnect` on the counter: give up at the maximum, otherwise
      count one more attempt and schedule it. */
  function NextAttempt(attempts: nat): (r: Option<nat>)
    ensures r.None? <==> attempts >= MaxReconnectAttempts
    ensures r.Some? ==> r.value == attempts + 1 && r.value <= MaxReconnectAttempts
  {
    if attempts >= MaxReconnectAttempts then None else Some(attempts + 1)
  }

  /** How many reconnects get scheduled when every one of them fails again
      (each failure closes the socket, and the close calls `attemptReconnect`). */
  function ReconnectChain(attempts: nat): nat
    decreases if attempts <= MaxReconnectAttempts then MaxReconnectAttempts - attempts else 0
  {
    match NextAttempt(attempts)
    case None => 0
    case Some(n) => 1 + ReconnectChain(n)
  }

  /** The client retries exactly up to the maximum and then stops: from a
      fresh counter, five reconnects, never more. */
  lemma {:induction false} ReconnectChainLength(attempts: nat)
    requires attempts <= MaxReconnectAttempts
    ensures ReconnectChain(attempts) == MaxReconnectAttempts - attempts
    decreases MaxReconnectAttempts - attempts
  {
    if attempts < MaxReconnectAttempts {
      ReconnectChainLength(attempts + 1);
    }
  }
}
