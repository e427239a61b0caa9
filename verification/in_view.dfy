/** The scroll-in animation hook (`hooks/useInViewAnimation.js`): an
    element's phase as intersection events arrive. */
module InViewAnimation {

  datatype Phase = Idle | Entering | Leaving

  /** The part of the hook's state that events change: the phase and the
      "has entered" flag. */
  datatype View = View(phase: Phase, hasEntered: bool)

  /** One observer callback, as a function of the state and the event. */
  function Step(v: View, once: bool, intersecting: bool): (w: View)
    ensures intersecting ==> w == View(Entering, true)
    ensures !intersecting ==> w.hasEntered == v.hasEntered
    ensures !intersecting && (!once || !v.hasEntered) ==> w.phase == Leaving
    ensures !intersecting && once && v.hasEntered ==> w == v
  {
    if intersecting then View(Entering, true)
    else if !once || !v.hasEntered then View(Leaving, v.hasEntered)
    else v
  }

  /** A sequence of callbacks, oldest first. */
  function Run(v: View, once: bool, events: seq<bool>): View
    decreases |events|
  {
    if events == [] then v else Run(Step(v, once, events[0]), once, events[1..])
  }

  /** With `once`, an element that has entered stays entered, whatever
      events follow. */
  lemma {:induction false} OnceStaysEntered(events: seq<bool>)
    ensures Run(View(Entering, true), true, events) == View(Entering, true)
    decreases |events|
  {
    if events != [] {
      OnceStaysEntered(events[1..]);
    }
  }

  /** Without `once`, the phase always follows the latest event. */
  lemma {:induction false} PhaseFollowsLastEvent(v: View, events: seq<bool>)
    requires events != []
    ensures Run(v, false, events).phase == if events[|events| - 1] then Entering else Leaving
    decreases |events|
  {
    if |events| > 1 {
      PhaseFollowsLastEvent(Step(v, false, events[0]), events[1..]);
      assert events[1..][|events[1..]| - 1] == events[|events| - 1];
    }
  }

  /** Once an element has entered, the flag stays set. */
  lemma {:induction false} EnteredIsSticky(v: View, once: bool, events: seq<bool>)
    requires v.hasEntered
    ensures Run(v, once, events).hasEntered
    decreases |events|
  {
    if events != [] {
      EnteredIsSticky(Step(v, once, events[0]), once, events[1..]);
    }
  }

  /** The hook's state on one mounted element. */
  class InView {
    var phase: Phase
    var hasEntered: bool
    /** Whether the intersection observer is still watching the element. */
    var observing: bool
    const once: bool

    /** The first render: idle, not entered, not yet observed. */
    constructor (once: bool)
      ensures this.once == once
      ensures phase == Idle && !hasEntered && !observing
    {
      this.once := once;
      phase := Idle;
      hasEntered := false;
      observing := false;
    }

    function State(): View
      reads this
    {
      View(phase, hasEntered)
    }

    /** The effect: without an element nothing happens; without
        `IntersectionObserver` the element is shown at once; otherwise the
        element is observed. */
    method Mount(hasNode: bool, hasObserver: bool)
      modifies this
      ensures !hasNode ==> phase == old(phase) && observing == old(observing)
      ensures hasNode && !hasObserver ==> phase == Entering && observing == old(observing)
      ensures hasNode && hasObserver ==> phase == old(phase) && observing
      ensures hasEntered == old(hasEntered)
    {
      if !hasNode {
        return;
      }
      if !hasObserver {
        phase := Entering;
        return;
      }
      observing := true;
    }

    /** One observer callback; with `once`, an entry also stops the
        observation. */
    method Observe(intersecting: bool)
      requires observing
      modifies this
      ensures State() == Step(old(State()), once, intersecting)
      ensures observing == !(intersecting && once)
    {
      if intersecting {
        hasEntered := true;
        phase := Entering;
        if once {
          observing := false;
        }
      } else if !once || !hasEntered {
        phase := Leaving;
      }
    }

    /** The effect's cleanup disconnects the observer. */
    method Disconnect()
      modifies this
      ensures !observing && State() == old(State())
    {
      observing := false;
    }
  }
}
