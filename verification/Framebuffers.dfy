/** The framebuffers of a render pass and the counter that selects one of them. */
module Framebuffers {

  const NUM_BUFFERS: nat := 3

  /** A snapshot of the framebuffer ring. */
  datatype PassView = PassView(framebuffers: seq<nat>, current: nat, initialized: bool) {

    predicate Valid() {
      && current < NUM_BUFFERS
      && |framebuffers| <= NUM_BUFFERS
      && (initialized ==> |framebuffers| == NUM_BUFFERS)
    }

    /** The ring after one step; stepping an empty ring stays at zero. */
    function Advanced(): PassView {
      this.(current := if current + 1 >= |framebuffers| then 0 else current + 1)
    }

    /** The ring after the render pass was made again. */
    function Rebuilt(handles: seq<nat>): PassView {
      PassView(handles, 0, true)
    }
  }

  class FramebufferRing {
    var framebuffers: seq<nat>
    var current: nat
    var initialized: bool

    function View(): PassView
      reads this
    {
      PassView(framebuffers, current, initialized)
    }

    constructor ()
      ensures View() == PassView([], 0, false) && View().Valid()
    {
      framebuffers, current, initialized := [], 0, false;
    }

    /** The render pass and its three framebuffers are created. */
    method Make(handles: seq<nat>)
      requires View().Valid() && |handles| == NUM_BUFFERS
      modifies this
      ensures View() == PassView(handles, old(current), true) && View().Valid()
    {
      framebuffers, initialized := handles, true;
    }

    /** Everything is destroyed before a recreation, which starts at framebuffer 0. */
    method Drop()
      requires View().Valid()
      modifies this
      ensures View() == PassView([], 0, false) && View().Valid()
    {
      framebuffers, current, initialized := [], 0, false;
    }

    method Advance()
      requires View().Valid()
      modifies this`current
      ensures View() == old(View()).Advanced() && View().Valid()
    {
      current := current + 1;
      if current >= |framebuffers| {
        current := 0;
      }
    }

    /** The current framebuffer; in range in every state of an initialized pass. */
    function CurrentFramebuffer(): nat
      reads this
      requires View().Valid() && initialized
    {
      framebuffers[current]
    }
  }
}
