/** The minimal mode holder (src/main/gestureApp.ts): the class the main
    process constructs and the WebSocket server is typed against. It keeps
    one mode and announces every change of it. */
module GestureAppMinimal {
  import opened GestureAppTypes

  class GestureApp {
    var state: GestureAppState
    /** Every event dispatched so far, oldest first. */
    var events: seq<GestureAppEvent>

    /** Only `changeState` events are ever dispatched, and the mode is the one
        the last of them announced (`idle` before the first). */
    ghost predicate Valid()
      reads this
    {
      (forall k :: 0 <= k < |events| ==> events[k].ChangeState?) &&
      state == LastStateEvent(events)
    }

    constructor ()
      ensures Valid()
      ensures state == Idle && events == []
    {
      state := Idle;
      events := [];
    }

    function GetState(): (s: GestureAppState)
      reads this
      requires Valid()
      ensures s == LastStateEvent(events)
    {
      state
    }

    /** `switchState`: a switch to the current mode is ignored; a switch to
        any other mode (there is no transition restriction) makes it and
        dispatches exactly one `changeState` event carrying it. */
    method SwitchState(s: GestureAppState)
      requires Valid()
      modifies this
      ensures Valid()
      ensures state == s
      ensures old(state) == s ==> events == old(events)
      ensures old(state) != s ==> events == old(events) + [ChangeState(s)]
    {
      if state == s {
        return;
      }
      LastStateEventAppend(events, ChangeState(s));
      state := s;
      events := events + [ChangeState(s)];
    }
  }
}
