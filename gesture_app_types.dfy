/** The presentation modes and the events the presentation controller
    dispatches (src/domain/gestureApp.ts). */
module GestureAppTypes {

  datatype GestureAppState = Idle | Slideshow | Paused | SingleImage

  /** The wire name of a mode, as the string union spells it. */
  function StateName(s: GestureAppState): string {
    match s
    case Idle => "idle"
    case Slideshow => "slideshow"
    case Paused => "paused"
    case SingleImage => "singleImage"
  }

  /** One `CustomEvent` as dispatched through the controller's `EventTarget`:
      its event name is the constructor, its `detail` the arguments. */
  datatype GestureAppEvent =
    | ChangeState(state: GestureAppState)
    | ChangeCurrentMediaId(mediaId: string)
    | ChangeCurrentSlideShowInterval(interval: int)

  /** The state carried by the most recent `changeState` event, or the initial
      state `idle` when none has been dispatched yet. */
  function LastStateEvent(events: seq<GestureAppEvent>): GestureAppState
    decreases |events|
  {
    if events == [] then Idle
    else if events[|events| - 1].ChangeState? then events[|events| - 1].state
    else LastStateEvent(events[..|events| - 1])
  }

  /** Dispatching an event that is not `changeState` does not change which
      state was announced last; dispatching `changeState(s)` announces `s`. */
  lemma LastStateEventAppend(events: seq<GestureAppEvent>, e: GestureAppEvent)
    ensures LastStateEvent(events + [e]) == if e.ChangeState? then e.state else LastStateEvent(events)
  {
    assert (events + [e])[..|events|] == events;
  }
}
