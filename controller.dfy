/**
 * The debounce state machine of GestureActionController.handle_gesture
 * (integration/ble_receiver.py). The controller remembers the last accepted
 * gesture and when it was accepted. It drops an event that repeats that
 * gesture within the cooldown. Otherwise it records the event and then routes
 * it. The clock is the explicit parameter `now`, in seconds.
 */
module Controller {
  import opened Wrappers
  import Routing

  /** gesture_cooldown, in seconds. */
  const GESTURE_COOLDOWN: real := 1.0

  /** last_gesture and last_gesture_time; None is Python's None. */
  datatype DebounceState = DebounceState(lastGesture: Option<string>, lastGestureTime: Option<real>)

  const INITIAL_STATE: DebounceState := DebounceState(None, None)

  /** What handling one event did: nothing, or the command routed and the request it made. */
  datatype Outcome = Dropped | Dispatched(command: Routing.Command, effect: Routing.Effect)

  /**
   * The debounce test: the same gesture as the last one recorded, a recorded
   * time that is truthy (a time of 0.0 is falsy in Python), and less than the
   * cooldown elapsed since it.
   */
  predicate Suppresses(st: DebounceState, gesture: Option<string>, now: real)
  {
    && gesture == st.lastGesture
    && st.lastGestureTime.Some?
    && st.lastGestureTime.value != 0.0
    && now - st.lastGestureTime.value < GESTURE_COOLDOWN
  }

  /** One call of handle_gesture: the new state and the outcome. */
  function Step(config: Routing.Config, st: DebounceState, gesture: Option<string>, now: real): (r: (DebounceState, Outcome))
  {
    if Suppresses(st, gesture, now) then (st, Dropped)
    else
      var command := Routing.Route(gesture);
      (DebounceState(gesture, Some(now)), Dispatched(command, Routing.Perform(config, command)))
  }

  /**
   * A repeat within the cooldown is dropped with the state unchanged; every
   * other event records its gesture and time, whether or not the gesture maps
   * to an action, and is routed.
   */
  lemma StepContract(config: Routing.Config, st: DebounceState, gesture: Option<string>, now: real)
    ensures var (st', out) := Step(config, st, gesture, now);
      && (out.Dropped? <==> Suppresses(st, gesture, now))
      && (out.Dropped? ==> st' == st)
      && (out.Dispatched? ==> st' == DebounceState(gesture, Some(now)))
      && (out.Dispatched? ==> out.command == Routing.Route(gesture))
      && (out.Dispatched? ==> out.effect == Routing.Perform(config, out.command))
  {
  }

  /**
   * Three ways an event is accepted, whatever else holds: a gesture different
   * from the last one, no time recorded yet, or at least the cooldown elapsed
   * (the test is strict, so exactly 1.0 s is accepted).
   */
  lemma AcceptedCases(config: Routing.Config, st: DebounceState, gesture: Option<string>, now: real)
    requires gesture != st.lastGesture || st.lastGestureTime.None?
      || now - st.lastGestureTime.value >= GESTURE_COOLDOWN
    ensures Step(config, st, gesture, now).1.Dispatched?
    ensures Step(config, st, gesture, now).0 == DebounceState(gesture, Some(now))
  {
  }

  /** The first event after start-up is always accepted, even one without a gesture name. */
  lemma FirstEventAccepted(config: Routing.Config, gesture: Option<string>, now: real)
    ensures Step(config, INITIAL_STATE, gesture, now).1.Dispatched?
  {
  }

  /**
   * Right after a gesture is accepted at time t (not 0.0), repeating it half the
   * cooldown later is dropped, and repeating it exactly the cooldown later is accepted.
   */
  lemma CooldownBoundary(config: Routing.Config, st: DebounceState, gesture: Option<string>, t: real)
    requires t != 0.0 && !Suppresses(st, gesture, t)
    ensures var st' := Step(config, st, gesture, t).0;
      && Step(config, st', gesture, t + GESTURE_COOLDOWN / 2.0).1.Dropped?
      && Step(config, st', gesture, t + GESTURE_COOLDOWN).1.Dispatched?
  {
  }

  /** A recorded time of 0.0 is falsy in Python, so it never suppresses a repeat. */
  lemma ZeroTimeNeverSuppresses(config: Routing.Config, gesture: Option<string>, now: real)
    ensures Step(config, DebounceState(gesture, Some(0.0)), gesture, now).1.Dispatched?
  {
  }

  // ---------------------------------------------------------------------
  // Sequences of events
  // ---------------------------------------------------------------------

  /** One notification from the wristband: the gesture name, if any, and the time it is handled. */
  datatype Event = Event(gesture: Option<string>, now: real)

  /** The state after the first n events, starting from st. */
  function StateAfter(config: Routing.Config, st: DebounceState, events: seq<Event>, n: nat): DebounceState
    requires n <= |events|
  {
    if n == 0 then st
    else Step(config, StateAfter(config, st, events, n - 1), events[n - 1].gesture, events[n - 1].now).0
  }

  /** What handling event n does. */
  function OutcomeAt(config: Routing.Config, st: DebounceState, events: seq<Event>, n: nat): Outcome
    requires n < |events|
  {
    Step(config, StateAfter(config, st, events, n), events[n].gesture, events[n].now).1
  }

  /** Dropped events leave the state as it was. */
  lemma {:induction false} DroppedKeepState(config: Routing.Config, st: DebounceState, events: seq<Event>, i: nat, j: nat)
    requires i <= j <= |events|
    requires forall k :: i <= k < j ==> OutcomeAt(config, st, events, k).Dropped?
    ensures StateAfter(config, st, events, j) == StateAfter(config, st, events, i)
  {
    if i < j {
      DroppedKeepState(config, st, events, i, j - 1);
      assert OutcomeAt(config, st, events, j - 1).Dropped?;
    }
  }

  /**
   * The cooldown runs from the last accepted event. After event i is accepted,
   * and while every later event is dropped, an event j with the same gesture
   * is dropped exactly when it comes less than the cooldown after event i
   * (provided event i's time is not 0.0, which Python reads as no time).
   */
  lemma CooldownFromLastAccepted(config: Routing.Config, st: DebounceState, events: seq<Event>, i: nat, j: nat)
    requires i < j < |events|
    requires OutcomeAt(config, st, events, i).Dispatched?
    requires forall k :: i < k < j ==> OutcomeAt(config, st, events, k).Dropped?
    requires events[j].gesture == events[i].gesture && events[i].now != 0.0
    ensures OutcomeAt(config, st, events, j).Dropped? <==> events[j].now - events[i].now < GESTURE_COOLDOWN
  {
    DroppedKeepState(config, st, events, i + 1, j);
    assert StateAfter(config, st, events, i + 1) == DebounceState(events[i].gesture, Some(events[i].now));
  }

  /** Two accepted events with the same gesture and nothing accepted between them are at least the cooldown apart. */
  lemma AcceptedRepeatsSpaced(config: Routing.Config, st: DebounceState, events: seq<Event>, i: nat, j: nat)
    requires i < j < |events|
    requires OutcomeAt(config, st, events, i).Dispatched? && OutcomeAt(config, st, events, j).Dispatched?
    requires forall k :: i < k < j ==> OutcomeAt(config, st, events, k).Dropped?
    requires events[j].gesture == events[i].gesture && events[i].now != 0.0
    ensures events[j].now - events[i].now >= GESTURE_COOLDOWN
  {
    CooldownFromLastAccepted(config, st, events, i, j);
  }

  // ---------------------------------------------------------------------
  // The controller object
  // ---------------------------------------------------------------------

  class GestureActionController {
    const config: Routing.Config
    var lastGesture: Option<string>
    var lastGestureTime: Option<real>
    const gestureCooldown: real := GESTURE_COOLDOWN

    /** A new controller has recorded nothing yet. */
    constructor (config: Routing.Config)
      ensures this.config == config
      ensures lastGesture == None && lastGestureTime == None
    {
      this.config := config;
      lastGesture := None;
      lastGestureTime := None;
    }

    function State(): DebounceState
      reads this
    {
      DebounceState(lastGesture, lastGestureTime)
    }

    /**
     * handle_gesture for an event carrying `gesture` (None when the message has
     * no "gesture" key), handled at time `now`.
     */
    method HandleGesture(gesture: Option<string>, now: real) returns (outcome: Outcome)
      modifies this
      ensures (State(), outcome) == Step(config, old(State()), gesture, now)
    {
      if gesture == lastGesture {
        if lastGestureTime.Some? && lastGestureTime.value != 0.0 && now - lastGestureTime.value < gestureCooldown {
          return Dropped;
        }
      }
      lastGesture := gesture;
      lastGestureTime := Some(now);
      var command := Routing.Route(gesture);
      var effect := Routing.Perform(config, command);
      return Dispatched(command, effect);
    }
  }
}
