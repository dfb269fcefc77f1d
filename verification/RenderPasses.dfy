/** A render pass drawn to a window: its attachments, its framebuffers, and the protocol
    of presenting the image that is outstanding and acquiring the next one. */
module RenderPasses {
  import opened Wrappers
  import opened Framebuffers
  import opened Presentation
  import opened Swapchains
  import opened Histories
  import opened WaitStates

  class RenderPass {
    const engine: Engine
    const swapchain: Swapchain
    const frames: FramebufferRing
    ghost var stoppedAt: Option<nat>   // images consumed when an acquire first failed
    ghost var slots: seq<Slot>         // what the synchronizations signal and wait for

    /** At most one image is outstanding, and it belongs to the current swapchain. */
    ghost predicate Outstanding()
      reads swapchain, engine, swapchain.syncs
      requires swapchain.engine == engine && swapchain.Valid()
    {
      && |swapchain.acquired| <= 1
      && (swapchain.acquired != [] ==> swapchain.handed[swapchain.consumed].generation == engine.generation)
    }

    /** Until an acquire fails every consumed image has been presented, and none after. */
    ghost predicate Presented()
      reads this, swapchain, engine, swapchain.syncs
      requires swapchain.engine == engine && swapchain.Valid()
    {
      && InOrder(engine.presents, swapchain.handed[..swapchain.consumed])
      && (swapchain.skipFrame <==> stoppedAt.Some?)
      && |engine.presents| == (if stoppedAt.Some? then stoppedAt.value else swapchain.consumed)
    }

    ghost predicate Mirrored()
      reads this, swapchain, swapchain.syncs
    {
      && |slots| == |swapchain.syncs|
      && forall i | 0 <= i < |slots| ::
           && slots[i].signal == swapchain.syncs[i].Signal()
           && slots[i].waits == swapchain.syncs[i].waitSems
    }

    /** The semaphores and wait lists, as values. */
    ghost function Waiting(): State
      reads this, swapchain, engine
    {
      State(swapchain.handed, swapchain.consumed, engine.presents, swapchain.skipFrame,
            engine.generation, engine.semaphores, slots)
    }

    ghost function Now(): Script
      reads swapchain, engine
    {
      Script(|engine.answers|, |engine.presents|, swapchain.skipFrame)
    }

    ghost predicate Driven()
      reads swapchain, engine
    {
      && DrivenBy(engine.oracle, engine.answers, swapchain.handed, swapchain.skipFrame)
      && Rotating(engine.oracle, engine.imageCount, engine.answers, swapchain.handed, swapchain.currentFrame)
    }

    ghost predicate Protocol()
      reads this, swapchain, engine, swapchain.syncs
    {
      && swapchain.engine == engine && swapchain.Valid()
      && Outstanding() && Presented() && Mirrored() && Fair(Waiting()) && Driven()
    }

    /** Between frames one image is outstanding if and only if the last acquire succeeded. */
    ghost predicate Valid()
      reads this, swapchain, engine, swapchain.syncs, frames
    {
      && Protocol() && frames.View().Valid() && frames.initialized
      && engine.answers != []
      && (|swapchain.acquired| == 1 <==> engine.answers[|engine.answers| - 1].Acquired?)
    }

    constructor (oracle: Oracle)
      ensures Unopened() && fresh(engine) && fresh(swapchain) && fresh(frames)
      ensures engine.oracle == oracle && engine.generation == 0
    {
      var e := new Engine(oracle);
      engine := e;
      swapchain := new Swapchain(e);
      frames := new FramebufferRing();
      stoppedAt, slots := None, [];
    }

    /** Synchronizations are only ever added. */
    twostate predicate SyncsKept()
      reads swapchain
      requires |old(swapchain.syncs)| <= |swapchain.syncs|
    {
      && (forall i | 0 <= i < |old(swapchain.syncs)| :: swapchain.syncs[i] == old(swapchain.syncs)[i])
      && (forall i | |old(swapchain.syncs)| <= i < |swapchain.syncs| :: fresh(swapchain.syncs[i]))
    }

    /** `Swapchain::submit` inside the protocol: the outstanding image is consumed.  The
        swapchain is made again if and only if presenting is on and the driver says so. */
    method SubmitFrame() returns (recreate: bool)
      requires Protocol() && swapchain.acquired != []
      modifies this`slots, swapchain, engine, swapchain.syncs
      ensures Protocol() && swapchain.acquired == []
      ensures |old(swapchain.syncs)| <= |swapchain.syncs| && SyncsKept()
      ensures swapchain.consumed == old(swapchain.consumed) + 1 && swapchain.handed == old(swapchain.handed)
      ensures swapchain.skipFrame == old(swapchain.skipFrame) && engine.answers == old(engine.answers)
      ensures recreate <==> !old(swapchain.skipFrame) && engine.oracle.recreate(|old(engine.presents)|)
      ensures !recreate ==> engine.generation == old(engine.generation)
      ensures |engine.presents| == |old(engine.presents)| + (if old(swapchain.skipFrame) then 0 else 1)
    {
      recreate := ConsumeFront();
      PresentedAfterSubmit(recreate);
      FairAfterSubmit(recreate);
      if recreate {
        RotatingRenewed(engine.oracle, old(engine.imageCount), engine.imageCount, engine.answers, swapchain.handed,
                        swapchain.currentFrame, old(engine.generation));
      }
    }

    /** The mirror is brought up to date. */
    ghost method Mirror()
      modifies this`slots
      ensures Mirrored()
    {
      slots := seq(|swapchain.syncs|, i requires 0 <= i < |swapchain.syncs| reads this, swapchain, swapchain.syncs =>
        Slot(swapchain.syncs[i].Signal(), swapchain.syncs[i].waitSems));
    }

    /** The state change of `SubmitFrame`. */
    method ConsumeFront() returns (recreate: bool)
      requires swapchain.engine == engine && swapchain.Valid() && |swapchain.acquired| == 1
      modifies this`slots, swapchain, engine, swapchain.syncs
      ensures swapchain.Valid() && |old(swapchain.syncs)| <= |swapchain.syncs| && SyncsKept()
      ensures Mirrored() && Consumed(recreate) && engine.answers == old(engine.answers)
      ensures engine.imageCount == if recreate
        then Grown(old(engine.imageCount), engine.oracle.images(old(engine.generation))) else old(engine.imageCount)
      ensures recreate <==> !old(swapchain.skipFrame) && engine.oracle.recreate(|old(engine.presents)|)
    {
      recreate := swapchain.Submit();
      Mirror();
    }

    /** Order and destination of the presents after one more. */
    twostate lemma {:induction false} PresentedAfterSubmit(recreate: bool)
      requires old(Protocol()) && old(swapchain.acquired) != [] && stoppedAt == old(stoppedAt)
      requires swapchain.engine == engine && swapchain.Valid() && |old(swapchain.syncs)| <= |swapchain.syncs|
      requires Consumed(recreate)
      ensures Presented()
    {
      var ps, hs, c := old(engine.presents), swapchain.handed, old(swapchain.consumed);
      if !swapchain.skipFrame {
        InOrderStep(ps, hs, engine.presents[c]);
      } else {
        InOrderLonger(ps, hs, c);
      }
    }

    /** What submitting the outstanding image does to the swapchain. */
    twostate predicate Consumed(recreate: bool)
      reads swapchain, engine, swapchain.syncs
      requires old(swapchain.engine == engine && swapchain.Valid()) && |old(swapchain.acquired)| == 1
      requires swapchain.engine == engine && swapchain.Valid() && |old(swapchain.syncs)| <= |swapchain.syncs|
    {
      var image := old(swapchain.acquired)[0];
      var waits := old(swapchain.syncs[image].waitSems);
      && swapchain.acquired == [] && swapchain.handed == old(swapchain.handed)
      && swapchain.consumed == old(swapchain.consumed) + 1 && swapchain.skipFrame == old(swapchain.skipFrame)
      && engine.presents == old(engine.presents) +
           (if swapchain.skipFrame then []
            else [PresentCall(image, old(engine.generation), waits, AllPending(old(engine.semaphores), waits))])
      && (forall i | 0 <= i < |old(swapchain.syncs)| ::
            swapchain.syncs[i].waitSems == (if i == image then [] else old(swapchain.syncs[i].waitSems)))
      && swapchain.Waited(if swapchain.skipFrame then [] else waits)
      && swapchain.currentFrame == old(swapchain.currentFrame)
      && (recreate ==> swapchain.Recreated() && !swapchain.skipFrame)
      && (!recreate ==> swapchain.Kept())
    }

    /** A submit is a step of the waiting state, followed by a renewal if the swapchain was made
        again. */
    twostate lemma {:induction false} FairAfterSubmit(recreate: bool)
      requires old(swapchain.engine == engine && swapchain.Valid()) && |old(swapchain.acquired)| == 1
      requires old(Mirrored()) && old(Fair(Waiting())) && Mirrored()
      requires swapchain.engine == engine && swapchain.Valid() && |old(swapchain.syncs)| <= |swapchain.syncs|
      requires Consumed(recreate)
      ensures Fair(Waiting())
    {
      var s := old(Waiting());
      if !recreate {
        FairConsumed(s, Waiting());
      } else {
        var image := old(swapchain.acquired)[0];
        var mid := s.(
          consumed := s.consumed + 1, presents := engine.presents,
          semaphores := engine.semaphores[..|s.semaphores|],
          slots := s.slots[image := Slot(s.slots[image].signal, [])]);
        FairConsumed(s, mid);
        FairRenewed(mid, Waiting());
      }
    }

    /** `Swapchain::acquire` inside the protocol: if the driver's answer is good, its image
        becomes outstanding; otherwise, and only then, the swapchain is made again and
        presenting is off for good. */
    method AcquireFrame() returns (recreate: bool)
      requires Protocol() && swapchain.acquired == []
      modifies this`stoppedAt, this`slots, swapchain, engine, swapchain.syncs
      ensures Protocol() && |swapchain.acquired| == (if recreate then 0 else 1)
      ensures |old(swapchain.syncs)| <= |swapchain.syncs| && SyncsKept()
      ensures old(engine.imageCount) > 0
      ensures engine.answers ==
        old(engine.answers) + [Fit(engine.oracle.acquire(|old(engine.answers)|), old(engine.imageCount))]
      ensures recreate <==> !engine.oracle.acquire(|old(engine.answers)|).Acquired?
      ensures swapchain.consumed == old(swapchain.consumed) && engine.presents == old(engine.presents)
      ensures |swapchain.handed| == |old(swapchain.handed)| + |swapchain.acquired|
      ensures old(swapchain.handed) == swapchain.handed[..|old(swapchain.handed)|]
      ensures !recreate ==> engine.generation == old(engine.generation)
      ensures swapchain.skipFrame == (old(swapchain.skipFrame) || recreate)
      ensures stoppedAt == if recreate && old(stoppedAt).None? then Some(swapchain.consumed) else old(stoppedAt)
    {
      recreate := TakeImage();
      ghost var hs := old(swapchain.handed);
      DrivenNext(engine.oracle, old(engine.answers), hs, old(swapchain.skipFrame),
                 engine.answers[|old(engine.answers)|], swapchain.handed, swapchain.skipFrame);
      PresentedAfterAcquire(recreate);
      FairAfterAcquire(recreate);
      RotatingAfterAcquire(recreate);
    }

    /** The slots are used in turn whether or not an acquire succeeds. */
    twostate lemma {:induction false} RotatingAfterAcquire(recreate: bool)
      requires old(Protocol()) && old(swapchain.acquired) == [] && old(engine.imageCount) > 0
      requires swapchain.engine == engine && swapchain.Valid() && |old(swapchain.syncs)| <= |swapchain.syncs|
      requires Taken(recreate)
      requires engine.answers ==
        old(engine.answers) + [Fit(engine.oracle.acquire(|old(engine.answers)|), old(engine.imageCount))]
      ensures Rotating(engine.oracle, engine.imageCount, engine.answers, swapchain.handed, swapchain.currentFrame)
    {
      var count, hs, f := old(engine.imageCount), old(swapchain.handed), old(swapchain.currentFrame);
      if recreate {
        RotatingFailed(engine.oracle, count, old(engine.answers), hs, f);
        RotatingRenewed(engine.oracle, count, engine.imageCount, engine.answers, hs, f, old(engine.generation));
      } else {
        RotatingHanded(engine.oracle, count, old(engine.answers), hs, f, swapchain.handed[|hs|]);
      }
    }

    /** An acquire is a step of the waiting state in both outcomes. */
    twostate lemma {:induction false} FairAfterAcquire(recreate: bool)
      requires old(swapchain.engine == engine && swapchain.Valid()) && old(swapchain.acquired) == []
      requires old(Mirrored()) && old(Fair(Waiting())) && Mirrored()
      requires swapchain.engine == engine && swapchain.Valid() && |old(swapchain.syncs)| <= |swapchain.syncs|
      requires Taken(recreate)
      ensures Fair(Waiting())
    {
      var s := old(Waiting());
      if recreate {
        FairRenewed(s, Waiting());
      } else {
        var f := old(swapchain.currentFrame);
        SignalsDiffer();
        assert old(swapchain.SlotOk(f));
        assert swapchain.syncs[f].signalSems == [swapchain.syncs[f].Signal()];
        var x := s.slots[f].signal;
        assert old(swapchain.syncs[f].signalSems) == [x];
        forall i | 0 <= i < |slots|
          ensures slots[i] == if i == f then Slot(x, s.slots[f].waits + [x]) else s.slots[i]
        {
          assert swapchain.syncs[i].signalSems == old(swapchain.syncs[i].signalSems);
        }
        assert Waiting().slots == s.slots[f := Slot(x, s.slots[f].waits + [x])];
        assert Waiting().semaphores == s.semaphores[x := true] && Waiting().consumed == s.consumed;
        FairHanded(s, Waiting(), swapchain.handed[|old(swapchain.handed)|]);
      }
    }

    /** Every slot has a semaphore of its own. */
    twostate lemma {:induction false} SignalsDiffer()
      requires old(swapchain.Valid()) && old(Mirrored())
      ensures SignalsApart(old(Waiting()))
    {
      forall i, j | 0 <= i < j < |old(slots)| ensures old(slots)[i].signal != old(slots)[j].signal {
        assert old(swapchain.SlotOk(i)) && old(swapchain.SlotOk(j));
        assert old(swapchain.syncs[i].signalSems) == [old(swapchain.syncs[i].Signal())];
        assert old(swapchain.syncs[j].signalSems) == [old(swapchain.syncs[j].Signal())];
      }
    }

    /** The state change of `AcquireFrame`. */
    method TakeImage() returns (recreate: bool)
      requires swapchain.engine == engine && swapchain.Valid() && swapchain.acquired == []
      modifies this`stoppedAt, this`slots, swapchain, engine, swapchain.syncs
      ensures swapchain.Valid() && |old(swapchain.syncs)| <= |swapchain.syncs| && SyncsKept()
      ensures Mirrored() && Taken(recreate)
      ensures old(engine.imageCount) > 0
      ensures engine.answers ==
        old(engine.answers) + [Fit(engine.oracle.acquire(|old(engine.answers)|), old(engine.imageCount))]
      ensures recreate <==> !engine.oracle.acquire(|old(engine.answers)|).Acquired?
      ensures !recreate ==> swapchain.acquired == [engine.answers[|old(engine.answers)|].image]
      ensures stoppedAt == if recreate && old(stoppedAt).None? then Some(swapchain.consumed) else old(stoppedAt)
    {
      recreate := AskSwapchain();
      Mirror();
    }

    /** The acquire itself, and when presenting stopped. */
    method AskSwapchain() returns (recreate: bool)
      requires swapchain.engine == engine && swapchain.Valid() && swapchain.acquired == []
      modifies this`stoppedAt, swapchain, engine, swapchain.syncs
      ensures swapchain.Valid() && |old(swapchain.syncs)| <= |swapchain.syncs| && SyncsKept()
      ensures Taken(recreate)
      ensures old(engine.imageCount) > 0
      ensures engine.answers ==
        old(engine.answers) + [Fit(engine.oracle.acquire(|old(engine.answers)|), old(engine.imageCount))]
      ensures recreate <==> !engine.oracle.acquire(|old(engine.answers)|).Acquired?
      ensures !recreate ==> swapchain.acquired == [engine.answers[|old(engine.answers)|].image]
      ensures stoppedAt == if recreate && old(stoppedAt).None? then Some(swapchain.consumed) else old(stoppedAt)
    {
      recreate := swapchain.Acquire();
      if recreate && stoppedAt.None? {
        stoppedAt := Some(swapchain.consumed);
      }
    }

    /** What an acquire does to the swapchain. */
    twostate predicate Taken(recreate: bool)
      reads swapchain, engine, swapchain.syncs
      requires old(swapchain.Valid()) && old(swapchain.acquired) == []
      requires swapchain.engine == engine && swapchain.Valid() && |old(swapchain.syncs)| <= |swapchain.syncs|
    {
      var hs, f := old(swapchain.handed), old(swapchain.currentFrame);
      && swapchain.consumed == old(swapchain.consumed) && engine.presents == old(engine.presents)
      && swapchain.skipFrame == (old(swapchain.skipFrame) || recreate)
      && (forall i | |old(swapchain.syncs)| <= i < |swapchain.syncs| :: swapchain.syncs[i].waitSems == [])
      && (forall i | 0 <= i < |old(swapchain.syncs)| ::
            swapchain.syncs[i].waitSems == old(swapchain.syncs[i].waitSems) +
              (if !recreate && i == f then swapchain.syncs[i].signalSems else []))
      && (recreate ==>
            && swapchain.acquired == [] && swapchain.handed == hs && swapchain.Recreated()
            && swapchain.StillPending(old(engine.semaphores)))
      && (!recreate ==>
            && swapchain.syncs == old(swapchain.syncs) && engine.generation == old(engine.generation)
            && (forall i | 0 <= i < |swapchain.syncs| ::
                  swapchain.syncs[i].signalSems == old(swapchain.syncs[i].signalSems))
            && |swapchain.acquired| == 1 && swapchain.currentFrame == (f + 1) % |swapchain.syncs|
            && swapchain.syncs[f].Signal() < |old(engine.semaphores)|
            && swapchain.handed == hs +
                 [Handed(swapchain.acquired[0], f, swapchain.syncs[f].Signal(), engine.generation,
                         !old(engine.semaphores)[swapchain.syncs[f].Signal()])]
            && engine.semaphores == old(engine.semaphores)[swapchain.syncs[f].Signal() := true])
    }

    /** The order of the presents after an acquire. */
    twostate lemma {:induction false} PresentedAfterAcquire(recreate: bool)
      requires old(swapchain.engine == engine && swapchain.Valid()) && old(swapchain.acquired) == []
      requires old(Outstanding() && Presented())
      requires swapchain.engine == engine && swapchain.Valid() && |old(swapchain.syncs)| <= |swapchain.syncs|
      requires Taken(recreate)
      requires stoppedAt == if recreate && old(stoppedAt).None? then Some(swapchain.consumed) else old(stoppedAt)
      ensures Outstanding() && Presented()
    {
      var hs, c := old(swapchain.handed), swapchain.consumed;
      assert hs[..c] == hs && swapchain.handed[..c] == hs;
    }

    /** The framebuffers are dropped, the swapchain is made again, new framebuffers are
        made, and an image is acquired. */
    method Rebuild() returns (acquired: bool)
      requires Protocol() && swapchain.acquired == [] && frames.View().Valid()
      modifies this`stoppedAt, this`slots, swapchain, engine, swapchain.syncs, frames
      ensures Valid() && |swapchain.acquired| == (if acquired then 1 else 0)
      ensures |old(swapchain.syncs)| <= |swapchain.syncs| && SyncsKept()
      ensures frames.current == 0
      ensures |engine.answers| == |old(engine.answers)| + 1
      ensures engine.answers[..|old(engine.answers)|] == old(engine.answers)
      ensures acquired <==> engine.oracle.acquire(|old(engine.answers)|).Acquired?
      ensures |old(swapchain.handed)| <= |swapchain.handed|
      ensures swapchain.handed[..|old(swapchain.handed)|] == old(swapchain.handed)
      ensures swapchain.consumed == old(swapchain.consumed) && engine.presents == old(engine.presents)
      ensures swapchain.skipFrame == (old(swapchain.skipFrame) || !acquired)
      ensures stoppedAt == if !acquired && old(stoppedAt).None? then Some(swapchain.consumed) else old(stoppedAt)
    {
      Remake();
      var failed := AcquireFrame();
      acquired := !failed;
    }

    /** Everything but the acquire: a new swapchain and three new framebuffers. */
    method Remake()
      requires Protocol() && swapchain.acquired == [] && frames.View().Valid()
      modifies this`slots, swapchain`syncs, swapchain`fences, engine, swapchain.syncs, frames
      ensures Protocol() && frames.View().Valid() && frames.initialized && frames.current == 0
      ensures |old(swapchain.syncs)| <= |swapchain.syncs| && SyncsKept()
      ensures engine.presents == old(engine.presents) && engine.answers == old(engine.answers)
    {
      frames.Drop();
      RecreateIdle();
      MakeFramebuffers();
    }

    /** A pass that has just been constructed. */
    ghost predicate Unopened()
      reads this, swapchain, engine, frames
    {
      && swapchain.engine == engine
      && swapchain.syncs == [] && engine.imageCount == 0 && engine.presents == []
      && engine.generation == 0 && engine.answers == []
      && swapchain.handed == [] && swapchain.consumed == 0 && swapchain.acquired == []
      && swapchain.currentFrame == 0 && !swapchain.skipFrame && stoppedAt == None && slots == []
      && frames.View() == PassView([], 0, false)
    }

    /** The pass is opened on a window: the protocol starts here, with an image outstanding
        if and only if the driver's first answer is good. */
    method Open() returns (acquired: bool)
      requires Unopened()
      modifies this`stoppedAt, this`slots, swapchain, engine, frames
      ensures Valid() && |swapchain.acquired| == (if acquired then 1 else 0)
      ensures fresh(swapchain.syncs) && engine.presents == [] && swapchain.consumed == 0
      ensures acquired <==> engine.oracle.acquire(0).Acquired?
      ensures engine.answers == [Fit(engine.oracle.acquire(0), Grown(0, engine.oracle.images(0)))]
      ensures |swapchain.handed| == (if acquired then 1 else 0)
      ensures swapchain.skipFrame == !acquired
      ensures frames.current == 0
    {
      OpenSurface();
      var failed := AcquireFrame();
      acquired := !failed;
    }

    /** The first swapchain with its framebuffers. */
    method OpenSurface()
      requires Unopened()
      modifies this`slots, swapchain`syncs, swapchain`fences, engine, frames
      ensures Protocol() && frames.View().Valid() && frames.initialized && frames.current == 0
      ensures fresh(swapchain.syncs) && engine.presents == [] && swapchain.skipFrame == old(swapchain.skipFrame)
      ensures engine.answers == [] && engine.imageCount == Grown(0, engine.oracle.images(0))
      ensures swapchain.acquired == [] && swapchain.handed == [] && swapchain.consumed == 0
    {
      FirstSwapchain();
      MakeFramebuffers();
    }

    /** The first swapchain, with no image acquired, satisfies the protocol. */
    method FirstSwapchain()
      requires Unopened()
      modifies this`slots, swapchain`syncs, swapchain`fences, engine
      ensures Protocol() && fresh(swapchain.syncs) && engine.presents == []
      ensures engine.answers == [] && engine.imageCount == Grown(0, engine.oracle.images(0))
      ensures swapchain.acquired == [] && swapchain.handed == [] && swapchain.currentFrame == 0
    {
      swapchain.Initialize();
      assert swapchain.Valid();
      Mirror();
      forall i | 0 <= i < |slots| ensures SignalOk(Waiting(), i) && WaitsKnown(Waiting(), i) {
        assert swapchain.SlotOk(i);
      }
    }

    /** The driver hands out three new framebuffers. */
    method MakeFramebuffers()
      requires frames.View().Valid()
      modifies frames
      ensures frames.View().Valid() && frames.initialized && frames.current == old(frames.current)
    {
      var a: int, b: int, c: int := *, *, *;
      frames.Make([if a >= 0 then a else 0, if b >= 0 then b else 0, if c >= 0 then c else 0]);
    }

    /** Making the swapchain again while no image is outstanding keeps the protocol. */
    method RecreateIdle()
      requires Protocol() && swapchain.acquired == []
      modifies this`slots, swapchain`syncs, swapchain`fences, engine, swapchain.syncs
      ensures Protocol() && engine.presents == old(engine.presents) && engine.answers == old(engine.answers)
      ensures |old(swapchain.syncs)| <= |swapchain.syncs| && SyncsKept()
    {
      forall i | 0 <= i < |swapchain.syncs| ensures swapchain.WaitsKnown(i) {
        assert swapchain.SlotOk(i);
      }
      ghost var hs := swapchain.handed;
      swapchain.Recreate();
      Mirror();
      FairRenewed(old(Waiting()), Waiting());
      RotatingRenewed(engine.oracle, old(engine.imageCount), engine.imageCount, engine.answers, hs,
                      swapchain.currentFrame, old(engine.generation));
    }

    /** One presented frame.  The outstanding image leaves the queue, presented unless
        presenting is off.  Everything else follows from the driver's answers: whether the pass
        was made again, how many acquires were made, whether an image is outstanding now, and
        whether presenting is off from now on. */
    method Present() returns (recreate: bool)
      requires Valid() && swapchain.acquired != []
      modifies this`stoppedAt, this`slots, swapchain, engine, swapchain.syncs, frames
      ensures Valid()
      ensures |old(swapchain.syncs)| <= |swapchain.syncs| && SyncsKept()
      ensures recreate <==> old(Now()).Changes(engine.oracle)
      ensures Now() == old(Now()).Next(engine.oracle)
      ensures |swapchain.acquired| == 1 <==> Now().ImageOut(engine.oracle)
      ensures engine.answers[..|old(engine.answers)|] == old(engine.answers)
      ensures |old(swapchain.handed)| <= |swapchain.handed|
      ensures swapchain.handed[..|old(swapchain.handed)|] == old(swapchain.handed)
      ensures swapchain.consumed == old(swapchain.consumed) + 1
      ensures !recreate ==> engine.generation == old(engine.generation)
      ensures recreate ==> frames.current == 0
      ensures !recreate ==> frames.View() == old(frames.View())
    {
      ghost var s := Now();
      var changed := SubmitFrame();
      recreate := Reacquire(changed, s);
    }

    /** The two branches of a frame, which began at `s`, once its image is consumed. */
    method Reacquire(changed: bool, ghost s: Script) returns (recreate: bool)
      requires Protocol() && swapchain.acquired == [] && frames.View().Valid() && frames.initialized
      requires changed <==> s.Reported(engine.oracle)
      requires Now() == s.(presents := s.presents + (if s.skip then 0 else 1))
      modifies this`stoppedAt, this`slots, swapchain, engine, swapchain.syncs, frames
      ensures Valid()
      ensures |old(swapchain.syncs)| <= |swapchain.syncs| && SyncsKept()
      ensures (recreate <==> s.Changes(engine.oracle)) && Now() == s.Next(engine.oracle)
      ensures |swapchain.acquired| == 1 <==> Now().ImageOut(engine.oracle)
      ensures engine.answers[..s.answers] == old(engine.answers)
      ensures |old(swapchain.handed)| <= |swapchain.handed|
      ensures swapchain.handed[..|old(swapchain.handed)|] == old(swapchain.handed)
      ensures swapchain.consumed == old(swapchain.consumed) && engine.presents == old(engine.presents)
      ensures !recreate ==> engine.generation == old(engine.generation)
      ensures recreate ==> frames.current == 0
      ensures !recreate ==> frames.View() == old(frames.View())
    {
      if changed {
        var acquired := Rebuild();
        recreate := true;
      } else {
        recreate := AcquireOrRebuild();
      }
      FrameNext(engine.oracle, s, changed, recreate, Now());
    }

    /** The second branch of a frame: an image is acquired, and if the surface has changed the
        pass is made again. */
    method AcquireOrRebuild() returns (recreate: bool)
      requires Protocol() && swapchain.acquired == [] && frames.View().Valid() && frames.initialized
      modifies this`stoppedAt, this`slots, swapchain, engine, swapchain.syncs, frames
      ensures Valid()
      ensures |old(swapchain.syncs)| <= |swapchain.syncs| && SyncsKept()
      ensures var n := |old(engine.answers)|;
        && (recreate <==> !engine.oracle.acquire(n).Acquired?)
        && |engine.answers| == (if recreate then n + 2 else n + 1)
        && engine.answers[..n] == old(engine.answers)
        && (|swapchain.acquired| == 1 <==> engine.oracle.acquire(|engine.answers| - 1).Acquired?)
        && (swapchain.skipFrame <==> old(swapchain.skipFrame) || recreate)
      ensures |old(swapchain.handed)| <= |swapchain.handed|
      ensures swapchain.handed[..|old(swapchain.handed)|] == old(swapchain.handed)
      ensures swapchain.consumed == old(swapchain.consumed) && engine.presents == old(engine.presents)
      ensures !recreate ==> engine.generation == old(engine.generation)
      ensures recreate ==> frames.current == 0
      ensures !recreate ==> frames.View() == old(frames.View())
    {
      recreate := AcquireFrame();
      ghost var hs, n := swapchain.handed, |old(engine.answers)|;
      assert engine.answers[..n] == old(engine.answers);
      if recreate {
        var acquired := Rebuild();
        assert swapchain.handed[..|old(swapchain.handed)|] == hs[..|old(swapchain.handed)|];
      }
    }

    /** A run of the render loop: it goes on as long as an image is outstanding. */
    method PresentFrames(count: nat) returns (ghost done: nat)
      requires Valid() && swapchain.acquired != []
      modifies this`stoppedAt, this`slots, swapchain, engine, swapchain.syncs, frames
      ensures Valid() && done <= count
      ensures swapchain.consumed == old(swapchain.consumed) + done
      ensures done < count ==> swapchain.acquired == []
    {
      done := 0;
      var left := count;
      while left > 0 && swapchain.acquired != []
        invariant Valid() && done + left == count
        invariant swapchain.consumed == old(swapchain.consumed) + done
        invariant |old(swapchain.syncs)| <= |swapchain.syncs| && SyncsKept()
      {
        var recreate := Present();
        left, done := left - 1, done + 1;
      }
    }
  }

  /** The two branches of a frame, as the script counts them. */
  lemma {:induction false} FrameNext(o: Oracle, s: Script, changed: bool, recreate: bool, s': Script)
    requires changed <==> s.Reported(o)
    requires recreate <==> changed || s.Fails(o)
    requires s'.answers == (if recreate && !changed then s.answers + 2 else s.answers + 1)
    requires s'.presents == s.presents + (if s.skip then 0 else 1)
    requires s'.skip <==> s.skip || s.Fails(o)
    ensures s' == s.Next(o) && (recreate <==> s.Changes(o))
  {
  }

  /** Between frames the queue is empty, so that the next submission would read the front of
      an empty queue, if and only if the driver's last answer was not good. */
  lemma {:induction false} NothingToSubmit(pass: RenderPass)
    requires pass.Valid()
    ensures pass.swapchain.acquired == []
            <==> !pass.engine.oracle.acquire(|pass.engine.answers| - 1).Acquired?
  {
  }

  /** In every state of the protocol: slot `i` waits for the semaphores of the acquires that used
      it since an image of its number was last taken off the queue, in order, and each of
      them has a pending signal. */
  lemma {:induction false} WaitList(pass: RenderPass, i: nat)
    requires pass.Protocol() && i < |pass.swapchain.syncs|
    ensures pass.swapchain.consumed <= |pass.swapchain.handed|
    ensures pass.swapchain.syncs[i].waitSems == ListOf(pass.swapchain.handed, i, pass.swapchain.consumed)
    ensures AllPending(pass.engine.semaphores, pass.swapchain.syncs[i].waitSems)
  {
    assert WaitsKnown(pass.Waiting(), i);
  }

  /** In a matched run only the outstanding image is waited for. */
  lemma {:induction false} MatchedWaitList(pass: RenderPass, i: nat)
    requires pass.Protocol() && i < |pass.swapchain.syncs|
    requires AllMatched(pass.swapchain.handed[..pass.swapchain.consumed])
    ensures pass.swapchain.syncs[i].waitSems ==
      if pass.swapchain.acquired != [] && pass.swapchain.handed[pass.swapchain.consumed].frame == i
      then [pass.swapchain.handed[pass.swapchain.consumed].semaphore] else []
  {
    WaitList(pass, i);
    MatchedList(pass.swapchain.handed, i, pass.swapchain.consumed);
  }

  /** In every run, every semaphore that a present waits for has a pending signal; and each
      present waits for exactly the semaphore of its own image if and only if every image
      presented had the number of its slot. */
  lemma {:induction false} PresentsWait(pass: RenderPass)
    requires pass.Protocol()
    ensures |pass.engine.presents| <= |pass.swapchain.handed|
    ensures forall j | 0 <= j < |pass.engine.presents| :: pass.engine.presents[j].ready
    ensures AllPaired(pass.engine.presents, pass.swapchain.handed)
            <==> AllMatched(pass.swapchain.handed[..|pass.engine.presents|])
  {
    PairedExactly(pass.engine.presents, pass.swapchain.handed);
  }

  /** A present waits for no semaphore twice if and only if the acquires that filled its list were
      all given free semaphores. */
  lemma {:induction false} WaitsOnce(pass: RenderPass, j: nat)
    requires pass.Protocol() && j < |pass.engine.presents|
    ensures j < |pass.swapchain.handed|
    ensures Once(pass.engine.presents[j].waits) <==>
      forall i | 0 <= i <= j && Fills(pass.swapchain.handed, i, j) :: pass.swapchain.handed[i].free
  {
    OnceExactly(pass.swapchain.handed, |pass.engine.presents|, j);
  }

  /** In every state of the protocol: acquire `j` was given a semaphore with no signal pending if
      and only if no earlier acquire of the same slot of the same swapchain had armed it
      without a present waiting on that slot since. */
  lemma {:induction false} SemaphoreFree(pass: RenderPass, j: nat)
    requires pass.Protocol() && j < |pass.swapchain.handed|
    ensures pass.swapchain.handed[j].free
            <==> !exists i :: 0 <= i < j && ArmedUntil(pass.swapchain.handed, |pass.engine.presents|, i, j)
  {
    assert FreeOk(pass.swapchain.handed, |pass.engine.presents|, j);
    FreeExactly(pass.swapchain.handed, |pass.engine.presents|, j);
  }

  /** So all semaphores were free in a matched run without failed acquires. */
  lemma {:induction false} MatchedRunFree(pass: RenderPass, j: nat)
    requires pass.Protocol() && !pass.swapchain.skipFrame && j < |pass.swapchain.handed|
    requires AllMatched(pass.swapchain.handed[..pass.swapchain.consumed])
    ensures pass.swapchain.handed[j].free
  {
    var hs, c := pass.swapchain.handed, pass.swapchain.consumed;
    assert FreeOk(hs, |pass.engine.presents|, j);
    forall i | 0 <= i < j ensures Matched(hs[..j][i]) {
      assert Matched(hs[..c][i]);
    }
    MatchedFree(hs, |pass.engine.presents|, j);
  }

  /** `count` more images of one swapchain were handed out. */
  predicate Later(hs: seq<Handed>, hs': seq<Handed>, count: nat, generation: nat) {
    && |hs'| == |hs| + count && hs'[..|hs|] == hs
    && forall j | |hs| <= j < |hs'| :: hs'[j].generation == generation
  }

  lemma {:induction false} LaterStill(a: seq<Handed>, b: seq<Handed>, c: seq<Handed>, count: nat, generation: nat)
    requires Later(a, b, 1, generation) && Later(b, c, count, generation)
    ensures Later(a, c, count + 1, generation)
  {
    assert c[..|b|][..|a|] == c[..|a|];
    assert c[..|b|][|a|] == c[|a|];
  }

  /** Frames in which the surface does not change. */
  method PresentCalm(pass: RenderPass, count: nat)
    requires pass.Valid() && pass.swapchain.acquired != []
    requires forall n | |pass.engine.answers| <= n < |pass.engine.answers| + count ::
               pass.engine.oracle.acquire(n).Acquired?
    requires forall n | |pass.engine.presents| <= n < |pass.engine.presents| + count ::
               !pass.engine.oracle.recreate(n)
    modifies pass`stoppedAt, pass`slots, pass.swapchain, pass.engine, pass.swapchain.syncs, pass.frames
    ensures pass.Valid() && pass.swapchain.acquired != []
    ensures pass.swapchain.skipFrame == old(pass.swapchain.skipFrame)
    ensures |pass.engine.answers| == |old(pass.engine.answers)| + count
    ensures |pass.engine.presents| ==
      |old(pass.engine.presents)| + (if old(pass.swapchain.skipFrame) then 0 else count)
    ensures pass.engine.generation == old(pass.engine.generation)
    ensures Later(old(pass.swapchain.handed), pass.swapchain.handed, count, pass.engine.generation)
    decreases count
  {
    if count > 0 {
      ghost var hs := pass.swapchain.handed;
      PresentCalmly(pass);
      ghost var hs' := pass.swapchain.handed;
      PresentCalm(pass, count - 1);
      LaterStill(hs, hs', pass.swapchain.handed, count - 1, pass.engine.generation);
    }
  }

  /** One such frame. */
  method PresentCalmly(pass: RenderPass)
    requires pass.Valid() && pass.swapchain.acquired != []
    requires !pass.Now().Changes(pass.engine.oracle)
    modifies pass`stoppedAt, pass`slots, pass.swapchain, pass.engine, pass.swapchain.syncs, pass.frames
    ensures pass.Valid() && pass.swapchain.acquired != []
    ensures pass.swapchain.skipFrame == old(pass.swapchain.skipFrame)
    ensures |pass.engine.answers| == |old(pass.engine.answers)| + 1
    ensures |pass.engine.presents| == |old(pass.engine.presents)| + (if old(pass.swapchain.skipFrame) then 0 else 1)
    ensures pass.engine.generation == old(pass.engine.generation)
    ensures Later(old(pass.swapchain.handed), pass.swapchain.handed, 1, pass.engine.generation)
    ensures |old(pass.swapchain.syncs)| <= |pass.swapchain.syncs| && pass.SyncsKept()
  {
    ghost var hs := pass.swapchain.handed;
    LastIsOutstanding(pass);
    var recreate := pass.Present();
    LastIsOutstanding(pass);
    OneLater(hs, pass.swapchain.handed, pass.engine.generation);
  }

  lemma {:induction false} LastIsOutstanding(pass: RenderPass)
    requires pass.Valid()
    ensures pass.swapchain.acquired != [] <==> pass.Now().ImageOut(pass.engine.oracle)
    ensures pass.swapchain.acquired != [] ==>
      && |pass.swapchain.handed| == pass.swapchain.consumed + 1
      && pass.swapchain.handed[pass.swapchain.consumed].generation == pass.engine.generation
  {
  }

  lemma {:induction false} OneLater(hs: seq<Handed>, hs': seq<Handed>, generation: nat)
    requires |hs'| == |hs| + 1 && hs'[..|hs|] == hs && hs'[|hs|].generation == generation
    ensures Later(hs, hs', 1, generation)
  {
  }

  /** A driver with three images that always hands out the image of the slot, but fails the
      second acquire. */
  const FAILS_ONCE := Oracle(
    n => if n == 0 then Acquired(0) else if n == 1 then OutOfDate else Acquired((n - 1) % 3), n => false, n => 3)

  /** With that driver presenting goes off, and as soon as the slots have gone round once an
      acquire is given a semaphore whose signal is still pending. */
  method SemaphoreReused() returns (pass: RenderPass)
    ensures pass.Valid() && pass.engine.oracle == FAILS_ONCE
    ensures |pass.swapchain.handed| == 5 && AllMatched(pass.swapchain.handed)
    ensures !pass.swapchain.handed[4].free
  {
    pass := FailOnce();
    ghost var hs := pass.swapchain.handed;
    PresentCalm(pass, 3);
    assert pass.swapchain.handed[1] == hs[1];
    FourthAfterFailure(pass);
  }

  /** The first frame with that driver. */
  method FailOnce() returns (pass: RenderPass)
    ensures pass.Valid() && pass.engine.oracle == FAILS_ONCE && fresh(pass) && fresh(pass.engine)
    ensures fresh(pass.swapchain) && fresh(pass.swapchain.syncs) && fresh(pass.frames)
    ensures pass.swapchain.skipFrame && |pass.engine.answers| == 3 && |pass.engine.presents| == 1
    ensures pass.swapchain.acquired != [] && |pass.swapchain.handed| == 2
    ensures pass.swapchain.handed[1].generation == pass.engine.generation
  {
    pass := new RenderPass(FAILS_ONCE);
    var acquired := pass.Open();
    var recreate := pass.Present();
  }

  /** The images of the first acquires with that driver. */
  lemma {:induction false} FailsOnceGiven(answers: seq<AcquireResult>)
    requires |answers| == 6 && forall i | 0 <= i < 6 :: answers[i] == Fit(FAILS_ONCE.acquire(i), 3)
    ensures Given(answers) == [0, 1, 2, 0, 1]
  {
    assert answers == ((((([] + [Acquired(0)]) + [OutOfDate]) + [Acquired(1)]) + [Acquired(2)]) + [Acquired(0)])
                      + [Acquired(1)];
    GivenNext([], Acquired(0));
    GivenNext([] + [Acquired(0)], OutOfDate);
    GivenNext(([] + [Acquired(0)]) + [OutOfDate], Acquired(1));
    GivenNext((([] + [Acquired(0)]) + [OutOfDate]) + [Acquired(1)], Acquired(2));
    GivenNext(((([] + [Acquired(0)]) + [OutOfDate]) + [Acquired(1)]) + [Acquired(2)], Acquired(0));
    GivenNext((((([] + [Acquired(0)]) + [OutOfDate]) + [Acquired(1)]) + [Acquired(2)]) + [Acquired(0)], Acquired(1));
  }

  lemma {:induction false} FourthAfterFailure(pass: RenderPass)
    requires pass.Valid() && pass.engine.oracle == FAILS_ONCE && |pass.engine.answers| == 6
    requires |pass.swapchain.handed| == 5 && |pass.engine.presents| == 1 && pass.swapchain.acquired != []
    requires pass.swapchain.handed[1].generation == pass.engine.generation
    ensures AllMatched(pass.swapchain.handed) && !pass.swapchain.handed[4].free
  {
    var hs := pass.swapchain.handed;
    assert Steady(pass.engine.oracle);
    FailsOnceGiven(pass.engine.answers);
    forall j | 0 <= j < 5 ensures Matched(hs[j]) {
      RoundRobinOfThree(j);
      assert Images(hs)[j] == [0, 1, 2, 0, 1][j];
    }
    assert FreeOk(hs, 1, 4);
    UnpresentedBusy(hs, 1, 1, 4);
  }

  /** A driver with three images that hands out image 1 four times and then image 0. */
  const SAME_IMAGE := Oracle(n => if n == 4 then Acquired(0) else Acquired(1), n => false, n => 3)

  /** With that driver slot 0 is used twice before its list is waited for: the fifth present
      waits for one semaphore twice. */
  method WaitsTwice() returns (pass: RenderPass)
    ensures pass.Valid() && pass.engine.oracle == SAME_IMAGE
    ensures |pass.engine.presents| == 5 && !Once(pass.engine.presents[4].waits)
  {
    pass := new RenderPass(SAME_IMAGE);
    var acquired := pass.Open();
    ghost var first := pass.swapchain.handed;
    PresentCalm(pass, 5);
    assert pass.swapchain.handed[..1][0] == first[0];
    FifthPresent(pass);
  }

  lemma {:induction false} SameImageGiven(answers: seq<AcquireResult>)
    requires |answers| == 6 && forall i | 0 <= i < 6 :: answers[i] == Fit(SAME_IMAGE.acquire(i), 3)
    ensures Given(answers) == [1, 1, 1, 1, 0, 1]
  {
    assert answers == ((((([] + [Acquired(1)]) + [Acquired(1)]) + [Acquired(1)]) + [Acquired(1)]) + [Acquired(0)])
                      + [Acquired(1)];
    GivenNext([], Acquired(1));
    GivenNext([] + [Acquired(1)], Acquired(1));
    GivenNext(([] + [Acquired(1)]) + [Acquired(1)], Acquired(1));
    GivenNext((([] + [Acquired(1)]) + [Acquired(1)]) + [Acquired(1)], Acquired(1));
    GivenNext(((([] + [Acquired(1)]) + [Acquired(1)]) + [Acquired(1)]) + [Acquired(1)], Acquired(0));
    GivenNext((((([] + [Acquired(1)]) + [Acquired(1)]) + [Acquired(1)]) + [Acquired(1)]) + [Acquired(0)], Acquired(1));
  }

  lemma {:induction false} FifthPresent(pass: RenderPass)
    requires pass.Valid() && pass.engine.oracle == SAME_IMAGE && |pass.engine.answers| == 6
    requires |pass.swapchain.handed| == 6 && |pass.engine.presents| == 5
    requires forall j | 0 <= j < 6 :: pass.swapchain.handed[j].generation == pass.engine.generation
    ensures !Once(pass.engine.presents[4].waits)
  {
    var hs := pass.swapchain.handed;
    assert Steady(pass.engine.oracle);
    SameImageGiven(pass.engine.answers);
    forall j | 0 <= j < 6 ensures hs[j].image == [1, 1, 1, 1, 0, 1][j] && hs[j].frame == j % 3 {
      RoundRobinOfThree(j);
      assert Images(hs)[j] == [1, 1, 1, 1, 0, 1][j];
    }
    assert Fills(hs, 3, 4);
    assert ArmedUntil(hs, 5, 0, 3);
    SemaphoreFree(pass, 3);
    WaitsOnce(pass, 4);
  }

  /** A driver that reports a changed surface at its second and third acquire: the first
      frame fails to acquire, so does the rebuild, and no image is left to submit. */
  method LoseImage() returns (pass: RenderPass)
    ensures pass.Valid() && pass.swapchain.acquired == [] && pass.swapchain.skipFrame
    ensures |pass.engine.presents| == 1
  {
    pass := new RenderPass(Oracle(n => if n == 0 then Acquired(0) else OutOfDate, n => false, n => 3));
    var acquired := pass.Open();
    var recreate := pass.Present();
  }

  /** A driver whose second acquire hands out an image that it calls suboptimal, as while a
      window is resized: that image is not queued, presenting is switched off for good, and the
      pass is made again with the next answer. */
  method SuboptimalDiscarded() returns (pass: RenderPass, recreate: bool)
    ensures pass.Valid() && recreate && pass.swapchain.skipFrame
    ensures pass.engine.answers == [Acquired(0), Suboptimal(1), Acquired(2)]
    ensures Images(pass.swapchain.handed) == [0, 2]
  {
    pass := new RenderPass(Oracle(n => if n == 1 then Suboptimal(1) else if n == 2 then Acquired(2) else Acquired(0),
                                  n => false, n => 3));
    var acquired := pass.Open();
    recreate := pass.Present();
    assert pass.Now() == Script(3, 1, true);
    SuboptimalAnswers(pass);
  }

  lemma {:induction false} SuboptimalAnswers(pass: RenderPass)
    requires pass.Valid() && |pass.engine.answers| == 3 && Steady(pass.engine.oracle)
    requires pass.engine.oracle.images(0) == 3
    requires pass.engine.oracle.acquire(0) == Acquired(0) && pass.engine.oracle.acquire(1) == Suboptimal(1)
    requires pass.engine.oracle.acquire(2) == Acquired(2)
    ensures pass.engine.answers == [Acquired(0), Suboptimal(1), Acquired(2)]
    ensures Images(pass.swapchain.handed) == [0, 2]
  {
    assert pass.engine.answers == [Acquired(0), Suboptimal(1), Acquired(2)];
    GivenOfThree(0, 1, 2);
  }

  lemma {:induction false} GivenOfThree(i: nat, j: nat, k: nat)
    ensures Given([Acquired(i), Suboptimal(j), Acquired(k)]) == [i, k]
  {
    assert Given([]) == [];
    GivenNext([], Acquired(i));
    GivenNext([Acquired(i)], Suboptimal(j));
    GivenNext([Acquired(i), Suboptimal(j)], Acquired(k));
    assert [] + [Acquired(i)] == [Acquired(i)];
    assert [Acquired(i)] + [Suboptimal(j)] == [Acquired(i), Suboptimal(j)];
    assert [Acquired(i), Suboptimal(j)] + [Acquired(k)] == [Acquired(i), Suboptimal(j), Acquired(k)];
  }

  /** A driver that hands out image 1 to frame 0: its present does not wait for the semaphore
      that the acquire of the image signals. */
  method Unpaired() returns (pass: RenderPass)
    ensures pass.Valid() && |pass.engine.presents| == 1 <= |pass.swapchain.handed|
    ensures pass.swapchain.handed[0].image == 1 && pass.swapchain.handed[0].frame == 0
    ensures !Paired(pass.engine.presents[0], pass.swapchain.handed[0])
  {
    pass := new RenderPass(Oracle(n => Acquired(1), n => false, n => 3));
    var acquired := pass.Open();
    assert Given(pass.engine.answers) == [1];
    assert Images(pass.swapchain.handed)[0] == 1;
    ghost var first := pass.swapchain.handed;
    var recreate := pass.Present();
    assert pass.swapchain.handed[..1][0] == first[0];
    assert !Matched(pass.swapchain.handed[..1][0]);
    PairedExactly(pass.engine.presents, pass.swapchain.handed);
    assert !AllPaired(pass.engine.presents, pass.swapchain.handed);
  }
}
