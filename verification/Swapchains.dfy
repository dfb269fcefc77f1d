/** The swapchain: a queue of acquired images, a frame counter, and one synchronization
    per frame. */
module Swapchains {
  import opened Wrappers
  import opened Presentation

  class Synchronization {
    var signalSems: seq<nat>
    var signalFence: Option<nat>
    var waitSems: seq<nat>
    var waitFences: seq<nat>

    constructor ()
      ensures signalSems == [] && signalFence == None && waitSems == [] && waitFences == []
    {
      signalSems, waitSems, waitFences := [], [], [];
      signalFence := None;
    }

    /** The semaphore to signal; a null handle, here 0, if there is none. */
    function Signal(): nat
      reads this
    {
      if 0 < |signalSems| then signalSems[0] else 0
    }

    /** New semaphores and a new fence, created signaled.  The wait lists stay. */
    method Initialize(engine: Engine, count: nat)
      modifies this`signalSems, this`signalFence, engine`fences, engine`semaphores
      ensures |signalSems| == count
      ensures forall i | 0 <= i < count :: signalSems[i] == |old(engine.semaphores)| + i
      ensures engine.semaphores == old(engine.semaphores) + seq(count, _ => false)
      ensures signalFence == Some(|old(engine.fences)|)
      ensures engine.fences == old(engine.fences) + [Signaled]
    {
      signalSems := [];
      for i := 0 to count
        invariant |signalSems| == i && engine.fences == old(engine.fences)
        invariant forall j | 0 <= j < i :: signalSems[j] == |old(engine.semaphores)| + j
        invariant engine.semaphores == old(engine.semaphores) + seq(i, _ => false)
      {
        var s := engine.CreateSemaphore();
        assert seq(i + 1, _ => false) == seq(i, _ => false) + [false];
        signalSems := signalSems + [s];
      }
      assert old(engine.semaphores) + seq(count, _ => false) == engine.semaphores;
      var f := engine.CreateFence();
      signalFence := Some(f);
    }

    method ResetFence(engine: Engine)
      requires signalFence.Some? && signalFence.value < |engine.fences|
      requires !engine.fences[signalFence.value].Armed?
      modifies engine`fences
      ensures engine.fences == old(engine.fences)[signalFence.value := Unsignaled]
    {
      engine.ResetFence(signalFence.value);
    }

    /** Whatever `sync` signals, this one waits for from now on; `sync` may be this one. */
    method WaitOn(sync: Synchronization)
      modifies this`waitSems, this`waitFences
      ensures waitSems == old(waitSems) + sync.signalSems
      ensures waitFences == old(waitFences) + (if sync.signalFence.Some? then [sync.signalFence.value] else [])
    {
      for i := 0 to |sync.signalSems|
        invariant waitSems == old(waitSems) + sync.signalSems[..i]
        invariant waitFences == old(waitFences)
      {
        waitSems := waitSems + [sync.signalSems[i]];
      }
      assert sync.signalSems[..|sync.signalSems|] == sync.signalSems;
      if sync.signalFence.Some? {
        waitFences := waitFences + [sync.signalFence.value];
      }
    }

    method Clear()
      modifies this`waitSems, this`waitFences
      ensures waitSems == [] && waitFences == []
    {
      waitFences := [];
      waitSems := [];
    }
  }

  /** What one successful acquire handed out, and whether its semaphore was free. */
  datatype Handed = Handed(image: nat, frame: nat, semaphore: nat, generation: nat, free: bool)

  class Swapchain {
    const engine: Engine
    var syncs: seq<Synchronization>
    var fences: seq<Option<nat>>
    var acquired: seq<nat>       // images acquired and not yet submitted, oldest first
    var currentFrame: nat
    var skipFrame: bool

    ghost var handed: seq<Handed>   // all successful acquires
    ghost var consumed: nat         // how many of them were taken off the queue

    /** The synchronization of a frame slot: one semaphore and one fence of its own.  A
        remembered fence is this one, and a successful acquire is going to signal it;
        otherwise nothing is. */
    ghost predicate SlotOk(i: nat)
      reads this, engine, syncs
      requires i < |syncs| == |fences|
    {
      var y := syncs[i];
      && |y.signalSems| == 1 && y.Signal() < |engine.semaphores|
      && y.signalFence.Some? && y.signalFence.value < |engine.fences|
      && (if fences[i].Some? then fences[i] == y.signalFence && engine.fences[y.signalFence.value].Armed?
          else engine.fences[y.signalFence.value].Signaled?)
      && (forall w | w in y.waitSems :: w < |engine.semaphores|)
    }

    ghost predicate Distinct()
      reads this, syncs
    {
      forall i, j | 0 <= i < j < |syncs| ::
        && syncs[i] != syncs[j]
        && syncs[i].signalFence != syncs[j].signalFence
        && syncs[i].signalSems != syncs[j].signalSems
    }

    /** Images leave the queue in the order they were acquired, and none is lost. */
    ghost predicate Conserved()
      reads this
    {
      && consumed + |acquired| == |handed|
      && forall j | 0 <= j < |acquired| :: acquired[j] == handed[consumed + j].image
    }

    ghost predicate Valid()
      reads this, engine, syncs
    {
      && |fences| == |syncs| == engine.imageCount
      && currentFrame < |syncs|
      && (forall i | 0 <= i < |syncs| :: SlotOk(i))
      && Distinct()
      && Conserved()
      && (forall j | 0 <= j < |acquired| :: acquired[j] < engine.imageCount)
    }

    constructor (engine: Engine)
      requires engine.imageCount == 0
      ensures this.engine == engine && syncs == [] && fences == [] && acquired == []
      ensures currentFrame == 0 && !skipFrame && handed == [] && consumed == 0
    {
      this.engine := engine;
      syncs, fences, acquired := [], [], [];
      currentFrame, skipFrame := 0, false;
      handed, consumed := [], 0;
    }

    /** Grows the list of synchronizations; the ones that exist stay. */
    method Resize(count: nat)
      requires |syncs| <= count
      modifies this`syncs
      ensures |syncs| == count && syncs[..|old(syncs)|] == old(syncs)
      ensures forall i | |old(syncs)| <= i < count ::
                fresh(syncs[i]) && syncs[i].waitSems == [] && syncs[i].waitFences == []
      ensures forall i, j | |old(syncs)| <= i < count && 0 <= j < i :: syncs[i] != syncs[j]
    {
      while |syncs| < count
        invariant |old(syncs)| <= |syncs| <= count && syncs[..|old(syncs)|] == old(syncs)
        invariant forall i | |old(syncs)| <= i < |syncs| ::
          fresh(syncs[i]) && syncs[i].waitSems == [] && syncs[i].waitFences == []
        invariant forall i, j | |old(syncs)| <= i < |syncs| && 0 <= j < i :: syncs[i] != syncs[j]
        decreases count - |syncs|
      {
        var y := new Synchronization();
        syncs := syncs + [y];
      }
    }

    /** Makes the swapchain, for the first time or again.  All fences and semaphores are
        new.  The frame counter, the queue of acquired images, the skip flag and the wait
        lists are left as they are. */
    method Initialize()
      requires |syncs| == engine.imageCount
      requires forall i, j | 0 <= i < j < |syncs| :: syncs[i] != syncs[j]
      requires forall i, w | 0 <= i < |syncs| && w in syncs[i].waitSems :: w < |engine.semaphores|
      modifies this`syncs, this`fences, engine, syncs
      ensures |fences| == |syncs| == engine.imageCount > 0
      ensures engine.generation == old(engine.generation) + 1
      ensures engine.imageCount == Grown(old(engine.imageCount), engine.oracle.images(old(engine.generation)))
      ensures engine.presents == old(engine.presents) && engine.answers == old(engine.answers)
      ensures syncs[..|old(syncs)|] == old(syncs)
      ensures Distinct()
      ensures forall i | 0 <= i < |syncs| ::
                SlotOk(i) && fences[i] == None && !engine.semaphores[syncs[i].Signal()]
      ensures forall i | 0 <= i < |syncs| :: syncs[i].Signal() >= |old(engine.semaphores)|
      ensures |engine.semaphores| >= |old(engine.semaphores)|
      ensures engine.semaphores[..|old(engine.semaphores)|] == old(engine.semaphores)
      ensures forall i | 0 <= i < |old(syncs)| ::
                syncs[i].waitSems == old(syncs[i].waitSems) && syncs[i].waitFences == old(syncs[i].waitFences)
      ensures forall i | |old(syncs)| <= i < |syncs| ::
                fresh(syncs[i]) && syncs[i].waitSems == [] && syncs[i].waitFences == []
    {
      engine.CreateSwapchain();
      Resize(engine.imageCount);
      fences := seq(|syncs|, _ => None);
      ghost var f, s := |engine.fences|, |engine.semaphores|;
      MakeSyncs();
      forall i | 0 <= i < |syncs| ensures SlotOk(i) {
        assert syncs[i].Signal() == s + i;
      }
    }

    /** Gives every frame a semaphore and a fence of its own. */
    method MakeSyncs()
      requires forall i, j | 0 <= i < j < |syncs| :: syncs[i] != syncs[j]
      modifies engine`fences, engine`semaphores, syncs
      ensures |engine.fences| == |old(engine.fences)| + |syncs|
      ensures |engine.semaphores| == |old(engine.semaphores)| + |syncs|
      ensures engine.semaphores[..|old(engine.semaphores)|] == old(engine.semaphores)
      ensures forall k | |old(engine.fences)| <= k < |engine.fences| :: engine.fences[k].Signaled?
      ensures forall k | |old(engine.semaphores)| <= k < |engine.semaphores| :: !engine.semaphores[k]
      ensures forall k | 0 <= k < |syncs| ::
        && syncs[k].signalSems == [|old(engine.semaphores)| + k]
        && syncs[k].signalFence == Some(|old(engine.fences)| + k)
        && syncs[k].waitSems == old(syncs[k].waitSems) && syncs[k].waitFences == old(syncs[k].waitFences)
    {
      ghost var f, s := |engine.fences|, |engine.semaphores|;
      for i := 0 to |syncs|
        invariant |engine.fences| == f + i && |engine.semaphores| == s + i
        invariant engine.semaphores[..s] == old(engine.semaphores)
        invariant forall k | f <= k < f + i :: engine.fences[k].Signaled?
        invariant forall k | s <= k < s + i :: !engine.semaphores[k]
        invariant forall k | 0 <= k < i :: syncs[k].signalSems == [s + k] && syncs[k].signalFence == Some(f + k)
        invariant forall k | 0 <= k < |syncs| ::
          syncs[k].waitSems == old(syncs[k].waitSems) && syncs[k].waitFences == old(syncs[k].waitFences)
      {
        syncs[i].Initialize(engine, 1);
        assert syncs[i].signalSems == [s + i];
      }
    }

    /** Signals that were pending have not been waited for. */
    ghost predicate StillPending(before: seq<bool>)
      reads engine
    {
      |before| <= |engine.semaphores| && forall s | 0 <= s < |before| && before[s] :: engine.semaphores[s]
    }

    /** A recreation: the semaphores are new and free, the wait lists hold old ones, and the
        frame counter stays. */
    twostate predicate Recreated()
      reads this, engine, syncs
      requires |old(syncs)| <= |syncs| == |fences|
    {
      && engine.generation == old(engine.generation) + 1
      && engine.imageCount == Grown(old(engine.imageCount), engine.oracle.images(old(engine.generation)))
      && currentFrame == old(currentFrame)
      && (forall i | 0 <= i < |syncs| :: syncs[i].Signal() >= |old(engine.semaphores)|)
      && syncs[..|old(syncs)|] == old(syncs)
      && (forall i | 0 <= i < |syncs| ::
            SlotOk(i) && fences[i] == None && !engine.semaphores[syncs[i].Signal()])
      && (forall i, w | 0 <= i < |old(syncs)| && w in syncs[i].waitSems :: w < |old(engine.semaphores)|)
      && (forall i | |old(syncs)| <= i < |syncs| :: fresh(syncs[i]) && syncs[i].waitSems == [])
    }

    /** What recreation needs: all of `Valid` but the state of the fences. */
    ghost predicate Recreatable()
      reads this, engine, syncs
    {
      && |fences| == |syncs| == engine.imageCount
      && currentFrame < |syncs|
      && (forall i | 0 <= i < |syncs| :: WaitsKnown(i))
      && Distinct()
      && Conserved()
      && (forall j | 0 <= j < |acquired| :: acquired[j] < engine.imageCount)
    }

    ghost predicate WaitsKnown(i: nat)
      reads this, engine, syncs
      requires i < |syncs|
    {
      forall w | w in syncs[i].waitSems :: w < |engine.semaphores|
    }

    method Recreate()
      requires Recreatable()
      modifies this`syncs, this`fences, engine, syncs
      ensures |old(syncs)| <= |syncs|
      ensures Valid() && Recreated()
      ensures engine.presents == old(engine.presents) && engine.answers == old(engine.answers)
      ensures |engine.semaphores| >= |old(engine.semaphores)|
      ensures engine.semaphores[..|old(engine.semaphores)|] == old(engine.semaphores)
      ensures forall i | 0 <= i < |old(syncs)| :: syncs[i].waitSems == old(syncs[i].waitSems)
    {
      forall i, w | 0 <= i < |syncs| && w in syncs[i].waitSems ensures w < |engine.semaphores| {
        assert WaitsKnown(i);
      }
      Initialize();
    }

    /** A failed acquire also switches presenting off. */
    method RecreateAndSkip()
      requires Recreatable()
      modifies this`syncs, this`fences, this`skipFrame, engine, syncs
      ensures |old(syncs)| <= |syncs| && skipFrame
      ensures Valid() && Recreated()
      ensures engine.presents == old(engine.presents) && engine.answers == old(engine.answers)
      ensures |engine.semaphores| >= |old(engine.semaphores)|
      ensures engine.semaphores[..|old(engine.semaphores)|] == old(engine.semaphores)
      ensures forall i | 0 <= i < |old(syncs)| :: syncs[i].waitSems == old(syncs[i].waitSems)
    {
      Recreate();
      skipFrame := true;
      forall i | 0 <= i < |syncs| ensures SlotOk(i) {
      }
    }

    /** Waits for the fence of the current frame if an acquire was going to signal it, and
        resets it; now nothing is going to signal it. */
    method TakeFence()
      requires Valid()
      modifies engine`fences
      ensures Recreatable() && |engine.fences| == |old(engine.fences)|
      ensures syncs[currentFrame].Signal() < |engine.semaphores|
      ensures syncs[currentFrame].signalFence.Some?
      ensures var h := syncs[currentFrame].signalFence.value;
        && h < |engine.fences| && engine.fences[h].Unsignaled?
        && forall k | 0 <= k < |engine.fences| && k != h :: engine.fences[k] == old(engine.fences)[k]
    {
      var index := currentFrame;
      assert SlotOk(index);
      if fences[index].Some? {
        engine.WaitForFence(fences[index].value);
        engine.ResetFence(fences[index].value);
      }
      syncs[index].ResetFence(engine);
      forall i | 0 <= i < |syncs| ensures WaitsKnown(i) {
        assert old(SlotOk(i));
      }
    }

    /** The driver can be asked to acquire once the fence is taken. */
    ghost predicate FrameReady(i: nat)
      reads this, engine, syncs
      requires i < |syncs|
    {
      && |syncs[i].signalSems| == 1 && syncs[i].Signal() < |engine.semaphores|
      && syncs[i].signalFence.Some? && syncs[i].signalFence.value < |engine.fences|
    }

    method AskDriver() returns (r: AcquireResult)
      requires Valid()
      modifies engine`fences, engine`semaphores, engine`answers
      ensures Recreatable() && FrameReady(currentFrame)
      ensures r == Fit(engine.oracle.acquire(|old(engine.answers)|), engine.imageCount)
      ensures engine.answers == old(engine.answers) + [r] && |engine.semaphores| == |old(engine.semaphores)|
      ensures StillPending(old(engine.semaphores))
      ensures forall i | 0 <= i < |syncs| && i != currentFrame :: SlotOk(i)
      ensures !r.OutOfDate? ==>
        && r.image < engine.imageCount
        && engine.fences[syncs[currentFrame].signalFence.value].Armed?
        && syncs[currentFrame].Signal() < |old(engine.semaphores)|
        && engine.semaphores == old(engine.semaphores)[syncs[currentFrame].Signal() := true]
    {
      TakeFence();
      var y := syncs[currentFrame];
      assert old(SlotOk(currentFrame));
      r := engine.AcquireNextImage(y.Signal(), y.signalFence.value);
      forall i | 0 <= i < |syncs| ensures WaitsKnown(i) && (i != currentFrame ==> SlotOk(i)) {
        assert old(SlotOk(i));
      }
    }

    /** The image was acquired: remember it, its fence and its semaphore, and move on. */
    method Remember(image: nat, ghost free: bool)
      requires Recreatable() && image < engine.imageCount
      requires forall i | 0 <= i < |syncs| && i != currentFrame :: SlotOk(i)
      requires FrameReady(currentFrame) && engine.fences[syncs[currentFrame].signalFence.value].Armed?
      modifies this`fences, this`acquired, this`handed, this`currentFrame, syncs
      ensures Valid()
      ensures currentFrame == (old(currentFrame) + 1) % |syncs|
      ensures forall i | 0 <= i < |syncs| ::
        && syncs[i].signalSems == old(syncs[i].signalSems)
        && syncs[i].waitSems ==
             old(syncs[i].waitSems) + (if i == old(currentFrame) then syncs[i].signalSems else [])
      ensures handed == old(handed) +
        [Handed(image, old(currentFrame), syncs[old(currentFrame)].Signal(), engine.generation, free)]
      ensures acquired == old(acquired) + [image]
    {
      var index := currentFrame;
      assert WaitsKnown(index);
      fences := fences[index := syncs[index].signalFence];
      acquired := acquired + [image];
      handed := handed + [Handed(image, index, syncs[index].Signal(), engine.generation, free)];
      currentFrame := (index + 1) % |syncs|;
      syncs[index].WaitOn(syncs[index]);
      forall i | 0 <= i < |syncs| ensures SlotOk(i) {
        assert i != index ==> old(SlotOk(i));
      }
    }

    /** Acquires the next image for the current frame slot.  The driver is given an
        unsignaled fence that nobody else uses, and the only fence waited for is one that
        an earlier successful acquire attached.  If and only if the driver answers that the
        surface has changed, the swapchain is made again, nothing is queued, and presenting
        is switched off. */
    method Acquire() returns (recreate: bool)
      requires Valid()
      modifies this, engine, syncs
      ensures Valid() && engine.presents == old(engine.presents) && consumed == old(consumed)
      ensures |old(syncs)| <= |syncs| && old(engine.imageCount) > 0
      ensures var r := Fit(engine.oracle.acquire(|old(engine.answers)|), old(engine.imageCount));
        && engine.answers == old(engine.answers) + [r]
        && (recreate <==> r.Suboptimal? || r.OutOfDate?)
        && acquired == old(acquired) + (if r.Acquired? then [r.image] else [])
      ensures recreate ==>
        && Recreated() && skipFrame && acquired == old(acquired) && handed == old(handed)
        && StillPending(old(engine.semaphores))
        && forall i | 0 <= i < |old(syncs)| :: syncs[i].waitSems == old(syncs[i].waitSems)
      ensures !recreate ==>
        && var f := old(currentFrame);
        && syncs == old(syncs) && skipFrame == old(skipFrame) && engine.generation == old(engine.generation)
        && currentFrame == (f + 1) % |syncs|
        && (forall i | 0 <= i < |syncs| ::
              && syncs[i].signalSems == old(syncs[i].signalSems)
              && syncs[i].waitSems == old(syncs[i].waitSems) + (if i == f then syncs[i].signalSems else []))
        && |acquired| == |old(acquired)| + 1
        && acquired == old(acquired) + [acquired[|old(acquired)|]]
        && syncs[f].Signal() < |old(engine.semaphores)|
        && handed == old(handed) +
             [Handed(acquired[|old(acquired)|], f, syncs[f].Signal(), engine.generation,
                     !old(engine.semaphores)[syncs[f].Signal()])]
        && engine.semaphores == old(engine.semaphores)[syncs[f].Signal() := true]
    {
      assert SlotOk(currentFrame);
      ghost var free := !engine.semaphores[syncs[currentFrame].Signal()];
      var r := AskDriver();
      if r.MustRecreate() {
        RecreateAndSkip();
        return true;
      }
      Remember(r.image, free);
      return false;
    }

    /** The semaphores after a present: those it waited for are no longer pending. */
    twostate predicate Waited(waits: seq<nat>)
      reads engine
    {
      && |old(engine.semaphores)| <= |engine.semaphores|
      && forall s | 0 <= s < |old(engine.semaphores)| ::
           engine.semaphores[s] == (old(engine.semaphores)[s] && s !in waits)
    }

    /** Presents the oldest acquired image, unless presenting is switched off, and takes it
        off the queue in any case. */
    method Submit() returns (recreate: bool)
      requires Valid() && acquired != []
      modifies this, engine, syncs
      ensures Valid() && |old(syncs)| <= |syncs| && engine.answers == old(engine.answers)
      ensures recreate <==> !old(skipFrame) && engine.oracle.recreate(|old(engine.presents)|)
      ensures acquired == old(acquired)[1..] && consumed == old(consumed) + 1 && handed == old(handed)
      ensures skipFrame == old(skipFrame) && currentFrame == old(currentFrame)
      ensures var i := old(acquired)[0];
              var waits := old(syncs[i].waitSems);
        && engine.presents ==
             (if skipFrame then old(engine.presents)
              else old(engine.presents) +
                   [PresentCall(i, old(engine.generation), waits, AllPending(old(engine.semaphores), waits))])
        && Waited(if skipFrame then [] else waits)
      ensures forall i | 0 <= i < |old(syncs)| ::
        syncs[i].waitSems == if i == old(acquired)[0] then [] else old(syncs[i].waitSems)
      ensures recreate ==> Recreated()
      ensures !recreate ==> Kept()
    {
      if !skipFrame {
        recreate := SubmitPresenting();
      } else {
        skipFrame := true;
        recreate := false;
        PopFront(acquired[0]);
      }
    }

    /** Nothing was made again. */
    twostate predicate Kept()
      reads this, engine, syncs
    {
      && syncs == old(syncs) && engine.generation == old(engine.generation)
      && |engine.semaphores| == |old(engine.semaphores)|
      && forall i | 0 <= i < |syncs| :: syncs[i].signalSems == old(syncs[i].signalSems)
    }

    /** The oldest image is presented and taken off the queue. */
    method SubmitPresenting() returns (recreate: bool)
      requires Valid() && acquired != []
      modifies this`syncs, this`fences, this`acquired, this`consumed, engine, syncs
      ensures Valid() && |old(syncs)| <= |syncs| && engine.answers == old(engine.answers)
      ensures recreate <==> engine.oracle.recreate(|old(engine.presents)|)
      ensures acquired == old(acquired)[1..] && consumed == old(consumed) + 1
      ensures var i := old(acquired)[0];
              var waits := old(syncs[i].waitSems);
        && engine.presents == old(engine.presents) +
             [PresentCall(i, old(engine.generation), waits, AllPending(old(engine.semaphores), waits))]
        && Waited(waits)
      ensures forall i | 0 <= i < |old(syncs)| ::
        syncs[i].waitSems == if i == old(acquired)[0] then [] else old(syncs[i].waitSems)
      ensures recreate ==> Recreated()
      ensures !recreate ==> Kept()
    {
      recreate := PresentFront();
      PopFront(acquired[0]);
    }

    /** Presents the oldest acquired image; a changed surface makes the swapchain again. */
    method PresentFront() returns (recreate: bool)
      requires Valid() && acquired != []
      modifies this`syncs, this`fences, engine, syncs
      ensures Valid() && |old(syncs)| <= |syncs| && engine.answers == old(engine.answers)
      ensures recreate == engine.oracle.recreate(|old(engine.presents)|)
      ensures var waits := old(syncs[acquired[0]].waitSems);
        && engine.presents == old(engine.presents) +
             [PresentCall(acquired[0], old(engine.generation), waits, AllPending(old(engine.semaphores), waits))]
        && Waited(waits)
      ensures forall i | 0 <= i < |old(syncs)| :: syncs[i].waitSems == old(syncs[i].waitSems)
      ensures recreate ==> Recreated()
      ensures !recreate ==> Kept()
    {
      assert SlotOk(acquired[0]);
      recreate := engine.QueuePresent(acquired[0], syncs[acquired[0]].waitSems);
      if recreate {
        forall i | 0 <= i < |syncs| ensures WaitsKnown(i) {
          assert old(SlotOk(i));
        }
        Recreate();
      } else {
        forall i | 0 <= i < |syncs| ensures SlotOk(i) {
          assert old(SlotOk(i));
        }
      }
    }

    /** Takes the oldest image off the queue and clears the wait lists of slot `index`. */
    method PopFront(index: nat)
      requires Valid() && acquired != [] && index < |syncs|
      modifies this`acquired, this`consumed, syncs[index]
      ensures Valid()
      ensures acquired == old(acquired)[1..] && consumed == old(consumed) + 1
      ensures syncs[index].waitSems == []
      ensures syncs[index].signalSems == old(syncs[index].signalSems)
      ensures syncs[index].signalFence == old(syncs[index].signalFence)
    {
      acquired := acquired[1..];
      consumed := consumed + 1;
      syncs[index].Clear();
      forall i | 0 <= i < |syncs| ensures SlotOk(i) {
        assert old(SlotOk(i));
      }
    }
  }
}
