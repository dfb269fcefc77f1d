/** The presentation engine as the swapchain code sees it. */
module Presentation {

  /** `Armed`: an acquire that succeeded will signal the fence. */
  datatype FenceStatus = Signaled | Unsignaled | Armed

  datatype AcquireResult =
    | Acquired(image: nat)
    | Suboptimal(image: nat)
    | OutOfDate
  {
    /** Also a suboptimal image, although the driver has handed it out. */
    predicate MustRecreate()
      ensures MustRecreate() <==> Suboptimal? || OutOfDate?
    {
      !Acquired?
    }
  }

  /** What the driver is going to answer: to the n-th acquire, to the n-th present, and how
      many images the n-th swapchain has.  Everything is proved for every oracle. */
  datatype Oracle = Oracle(acquire: nat -> AcquireResult, recreate: nat -> bool, images: nat -> nat)

  /** An image index the driver gives is an index of one of its images. */
  function Fit(r: AcquireResult, imageCount: nat): (f: AcquireResult)
    requires imageCount > 0
    ensures f.Acquired? == r.Acquired? && f.Suboptimal? == r.Suboptimal?
    ensures !f.OutOfDate? ==> f.image < imageCount
    ensures !r.OutOfDate? && r.image < imageCount ==> f == r
  {
    match r
    case Acquired(image) => Acquired(if image < imageCount then image else 0)
    case Suboptimal(image) => Suboptimal(if image < imageCount then image else 0)
    case OutOfDate => OutOfDate
  }

  /** Making the swapchain again never yields fewer images. */
  function Grown(imageCount: nat, wanted: nat): (r: nat)
    ensures r >= imageCount && r > 0
    ensures imageCount < wanted ==> r == wanted
  {
    if imageCount < wanted then wanted else if imageCount == 0 then 1 else imageCount
  }

  /** One call of vkQueuePresentKHR, and whether every semaphore it waits for had a pending
      signal. */
  datatype PresentCall = PresentCall(image: nat, generation: nat, waits: seq<nat>, ready: bool)

  predicate AllPending(semaphores: seq<bool>, waits: seq<nat>) {
    forall w | w in waits :: w < |semaphores| && semaphores[w]
  }

  /** Fences, semaphores and swapchains are handles of a device that answers as its oracle
      says: any acquire and any present may report that the surface has changed. */
  class Engine {
    const oracle: Oracle
    var answers: seq<AcquireResult>   // what all acquires so far were answered
    var fences: seq<FenceStatus>
    var semaphores: seq<bool>     // a signal is pending or has not been waited for
    var generation: nat           // swapchains made so far
    var imageCount: nat
    var presents: seq<PresentCall>

    constructor (oracle: Oracle)
      ensures fences == [] && semaphores == [] && generation == 0 && imageCount == 0 && presents == []
      ensures this.oracle == oracle && answers == []
    {
      this.oracle, answers := oracle, [];
      fences, semaphores, presents := [], [], [];
      generation, imageCount := 0, 0;
    }

    method CreateFence() returns (fence: nat)
      modifies this`fences
      ensures fence == |old(fences)| && fences == old(fences) + [Signaled]
    {
      fence := |fences|;
      fences := fences + [Signaled];
    }

    method CreateSemaphore() returns (semaphore: nat)
      modifies this`semaphores
      ensures semaphore == |old(semaphores)| && semaphores == old(semaphores) + [false]
    {
      semaphore := |semaphores|;
      semaphores := semaphores + [false];
    }

    /** Returns only because an earlier acquire signals the fence. */
    method WaitForFence(fence: nat)
      requires fence < |fences| && !fences[fence].Unsignaled?
      modifies this`fences
      ensures fences == old(fences)[fence := Signaled]
    {
      fences := fences[fence := Signaled];
    }

    /** A fence may be reset only while nothing is going to signal it. */
    method ResetFence(fence: nat)
      requires fence < |fences| && !fences[fence].Armed?
      modifies this`fences
      ensures fences == old(fences)[fence := Unsignaled]
    {
      fences := fences[fence := Unsignaled];
    }

    method CreateSwapchain()
      modifies this`generation, this`imageCount
      ensures generation == old(generation) + 1
      ensures imageCount == Grown(old(imageCount), oracle.images(old(generation)))
    {
      imageCount := Grown(imageCount, oracle.images(generation));
      generation := generation + 1;
    }

    /** The fence must be unsignaled and in no one's use. */
    method AcquireNextImage(semaphore: nat, fence: nat) returns (r: AcquireResult)
      requires semaphore < |semaphores| && fence < |fences| && imageCount > 0
      requires fences[fence].Unsignaled?
      modifies this`fences, this`semaphores, this`answers
      ensures r == Fit(oracle.acquire(|old(answers)|), imageCount) && answers == old(answers) + [r]
      ensures !r.OutOfDate? ==>
        && fences == old(fences)[fence := Armed]
        && semaphores == old(semaphores)[semaphore := true]
      ensures r.OutOfDate? ==> fences == old(fences) && semaphores == old(semaphores)
    {
      r := Fit(oracle.acquire(|answers|), imageCount);
      answers := answers + [r];
      if !r.OutOfDate? {
        fences := fences[fence := Armed];
        semaphores := semaphores[semaphore := true];
      }
    }

    /** Presents an image, waiting on the given semaphores. */
    method QueuePresent(image: nat, waits: seq<nat>) returns (mustRecreate: bool)
      requires image < imageCount
      requires forall w | w in waits :: w < |semaphores|
      modifies this`presents, this`semaphores
      ensures mustRecreate == oracle.recreate(|old(presents)|)
      ensures presents ==
        old(presents) + [PresentCall(image, generation, waits, AllPending(old(semaphores), waits))]
      ensures |semaphores| == |old(semaphores)|
      ensures forall s | 0 <= s < |semaphores| :: semaphores[s] == (old(semaphores)[s] && s !in waits)
    {
      mustRecreate := oracle.recreate(|presents|);
      presents := presents + [PresentCall(image, generation, waits, AllPending(semaphores, waits))];
      semaphores := seq(|semaphores|, s requires 0 <= s < |semaphores| reads this => semaphores[s] && s !in waits);
    }
  }
}
