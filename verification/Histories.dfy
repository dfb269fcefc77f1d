/** What the present protocol has done so far, as sequences: the images handed out, the
    presents made, and the laws that connect them. */
module Histories {
  import opened Presentation
  import opened Swapchains

  /** The driver's image index agrees with the frame slot of the acquire. */
  predicate Matched(h: Handed) {
    h.image == h.frame
  }

  predicate AllMatched(hs: seq<Handed>) {
    forall j | 0 <= j < |hs| :: Matched(hs[j])
  }

  /** The present waits for the one semaphore that the acquire of its image signals. */
  predicate Paired(p: PresentCall, h: Handed) {
    p.waits == [h.semaphore]
  }

  predicate AllPaired(ps: seq<PresentCall>, hs: seq<Handed>)
    requires |ps| <= |hs|
  {
    forall j | 0 <= j < |ps| :: Paired(ps[j], hs[j])
  }

  /** Images are presented in the order they were acquired, each to the swapchain it was
      acquired from. */
  predicate InOrder(ps: seq<PresentCall>, hs: seq<Handed>) {
    && |ps| <= |hs|
    && forall j | 0 <= j < |ps| :: ps[j].image == hs[j].image && ps[j].generation == hs[j].generation
  }

  /** The images handed out, in order. */
  function Images(hs: seq<Handed>): (r: seq<nat>)
    ensures |r| == |hs| && forall j | 0 <= j < |r| :: r[j] == hs[j].image
  {
    seq(|hs|, j requires 0 <= j < |hs| => hs[j].image)
  }

  /** The images of the answers that were accepted, in order. */
  function Given(answers: seq<AcquireResult>): seq<nat> {
    if answers == [] then []
    else
      var last := answers[|answers| - 1];
      Given(answers[..|answers| - 1]) + (match last case Acquired(image) => [image] case Suboptimal(_) => [] case OutOfDate => [])
  }

  lemma {:induction false} GivenNext(answers: seq<AcquireResult>, r: AcquireResult)
    ensures Given(answers + [r]) == Given(answers) + (if r.Acquired? then [r.image] else [])
  {
    assert (answers + [r])[..|answers|] == answers;
  }

  predicate AnyFailed(answers: seq<AcquireResult>) {
    exists i :: 0 <= i < |answers| && (answers[i].Suboptimal? || answers[i].OutOfDate?)
  }

  /** How far a run has got: acquires answered, presents made, and whether presenting is off.
      The driver's answers determine how a frame moves it on. */
  datatype Script = Script(answers: nat, presents: nat, skip: bool) {

    /** The present of the frame reports a changed surface. */
    predicate Reported(o: Oracle) {
      !skip && o.recreate(presents)
    }

    /** The acquire of the frame, or of its rebuild, does. */
    predicate Fails(o: Oracle) {
      o.acquire(answers).Suboptimal? || o.acquire(answers).OutOfDate?
    }

    /** The frame makes the pass again. */
    predicate Changes(o: Oracle) {
      Reported(o) || Fails(o)
    }

    function Next(o: Oracle): Script {
      Script(answers + (if !Reported(o) && Fails(o) then 2 else 1), presents + (if skip then 0 else 1),
             skip || Fails(o))
    }

    /** An image is outstanding before the frame. */
    predicate ImageOut(o: Oracle) {
      answers > 0 && o.acquire(answers - 1).Acquired?
    }
  }

  function ScriptAt(o: Oracle, s: Script, n: nat): Script {
    if n == 0 then s else ScriptAt(o, s, n - 1).Next(o)
  }

  /** Which of the next `n` frames make the pass again. */
  function Recreations(o: Oracle, s: Script, n: nat): (r: seq<bool>)
    ensures |r| == n
  {
    if n == 0 then [] else Recreations(o, s, n - 1) + [ScriptAt(o, s, n - 1).Changes(o)]
  }

  lemma {:induction false} RecreationsPrefix(o: Oracle, s: Script, n: nat, m: nat)
    requires n <= m
    ensures Recreations(o, s, m)[..n] == Recreations(o, s, n)
  {
    if n < m {
      RecreationsPrefix(o, s, n, m - 1);
    }
  }

  lemma {:induction false} RecreationsAt(o: Oracle, s: Script, n: nat, i: nat)
    requires i < n
    ensures Recreations(o, s, n)[i] <==> ScriptAt(o, s, i).Changes(o)
  {
    RecreationsPrefix(o, s, i + 1, n);
    assert Recreations(o, s, n)[i] == Recreations(o, s, n)[..i + 1][i];
  }

  /** Before each of the next `n` frames an image is outstanding. */
  predicate ImagesOut(o: Oracle, s: Script, n: nat) {
    n > 0 ==> ScriptAt(o, s, n - 1).ImageOut(o) && ImagesOut(o, s, n - 1)
  }

  lemma {:induction false} ImagesOutEach(o: Oracle, s: Script, n: nat, i: nat)
    requires i < n && ImagesOut(o, s, n)
    ensures ScriptAt(o, s, i).ImageOut(o)
  {
    if i < n - 1 {
      ImagesOutEach(o, s, n - 1, i);
    }
  }

  /** The state of the protocol is what the driver's answers make it: exactly the accepted
      images were handed out, and presenting is off if and only if an acquire ever failed. */
  ghost predicate DrivenBy(oracle: Oracle, answers: seq<AcquireResult>, hs: seq<Handed>, skip: bool) {
    && (forall i | 0 <= i < |answers| :: answers[i].Acquired? <==> oracle.acquire(i).Acquired?)
    && Images(hs) == Given(answers)
    && (skip <==> AnyFailed(answers))
  }

  lemma {:induction false} DrivenNext(oracle: Oracle, answers: seq<AcquireResult>, hs: seq<Handed>, skip: bool, r: AcquireResult,
                   hs': seq<Handed>, skip': bool)
    requires DrivenBy(oracle, answers, hs, skip)
    requires r.Acquired? <==> oracle.acquire(|answers|).Acquired?
    requires !r.Acquired? ==> hs' == hs
    requires r.Acquired? ==> |hs'| == |hs| + 1 && hs'[..|hs|] == hs && hs'[|hs|].image == r.image
    requires skip' <==> skip || !r.Acquired?
    ensures DrivenBy(oracle, answers + [r], hs', skip')
  {
    var all := answers + [r];
    assert all[..|answers|] == answers && all[|answers|] == r;
    if r.Acquired? {
      assert hs' == hs + [hs'[|hs|]];
      assert Images(hs') == Images(hs) + [r.image];
    }
    if AnyFailed(answers) {
      var i :| 0 <= i < |answers| && !answers[i].Acquired?;
      assert !all[i].Acquired?;
    }
    if AnyFailed(all) {
      var i :| 0 <= i < |all| && !all[i].Acquired?;
      assert i < |answers| ==> !answers[i].Acquired?;
    }
  }

  lemma {:induction false} InOrderStep(ps: seq<PresentCall>, hs: seq<Handed>, p: PresentCall)
    requires |ps| < |hs| && InOrder(ps, hs[..|ps|])
    requires p.image == hs[|ps|].image && p.generation == hs[|ps|].generation
    ensures InOrder(ps + [p], hs[..|ps| + 1])
  {
    forall j | 0 <= j < |ps| ensures ps[j].image == hs[j].image && ps[j].generation == hs[j].generation {
      assert hs[..|ps|][j] == hs[j];
    }
  }

  lemma {:induction false} InOrderLonger(ps: seq<PresentCall>, hs: seq<Handed>, c: nat)
    requires c < |hs| && InOrder(ps, hs[..c])
    ensures InOrder(ps, hs[..c + 1])
  {
    forall j | 0 <= j < |ps| ensures ps[j].image == hs[j].image && ps[j].generation == hs[j].generation {
      assert hs[..c][j] == hs[j];
    }
  }

  // ---------------------------------------------------------------- semaphores

  /** Acquire `i` used slot `f` of swapchain `generation`, and none of the `p` presents made
      since then waited on that slot. */
  predicate StillArmed(hs: seq<Handed>, p: nat, i: nat, f: nat, generation: nat)
    requires i < |hs|
  {
    && hs[i].frame == f && hs[i].generation == generation
    && forall k | i <= k < |hs| && k < p :: hs[k].image != f
  }

  /** The semaphore of slot `f` has a signal that nothing has waited for. */
  predicate Busy(hs: seq<Handed>, p: nat, f: nat, generation: nat) {
    exists i :: 0 <= i < |hs| && StillArmed(hs, p, i, f, generation)
  }

  /** Acquire `j` was given a free semaphore if and only if no earlier acquire of the same slot
      and swapchain was still armed. */
  predicate FreeOk(hs: seq<Handed>, p: nat, j: nat)
    requires j < |hs|
  {
    hs[j].free <==> !Busy(hs[..j], p, hs[j].frame, hs[j].generation)
  }

  predicate AllFreeOk(hs: seq<Handed>, p: nat) {
    forall j | 0 <= j < |hs| :: FreeOk(hs, p, j)
  }

  predicate NotLater(hs: seq<Handed>, generation: nat) {
    forall j | 0 <= j < |hs| :: hs[j].generation <= generation
  }

  /** Acquire `i` armed the semaphore that acquire `j` was given, and no present in between
      waited on its slot. */
  predicate ArmedUntil(hs: seq<Handed>, p: nat, i: nat, j: nat)
    requires i < j < |hs|
  {
    && hs[i].frame == hs[j].frame && hs[i].generation == hs[j].generation
    && forall k | i <= k < j && k < p :: hs[k].image != hs[j].frame
  }

  lemma {:induction false} FreeExactly(hs: seq<Handed>, p: nat, j: nat)
    requires j < |hs| && FreeOk(hs, p, j)
    ensures hs[j].free <==> !exists i :: 0 <= i < j && ArmedUntil(hs, p, i, j)
  {
    var before := hs[..j];
    forall i | 0 <= i < j
      ensures StillArmed(before, p, i, hs[j].frame, hs[j].generation) <==> ArmedUntil(hs, p, i, j)
    {
      assert forall k | 0 <= k < j :: before[k] == hs[k];
    }
    if Busy(before, p, hs[j].frame, hs[j].generation) {
      var i :| 0 <= i < |before| && StillArmed(before, p, i, hs[j].frame, hs[j].generation);
      assert ArmedUntil(hs, p, i, j);
    }
    if i :| 0 <= i < j && ArmedUntil(hs, p, i, j) {
      assert StillArmed(before, p, i, hs[j].frame, hs[j].generation);
    }
  }

  /** One more acquire arms its own slot and no other. */
  lemma {:induction false} BusyHanded(hs: seq<Handed>, p: nat, h: Handed, f: nat, generation: nat)
    requires p <= |hs|
    ensures Busy(hs + [h], p, f, generation) <==>
      Busy(hs, p, f, generation) || (h.frame == f && h.generation == generation)
  {
    var hs' := hs + [h];
    forall i | 0 <= i < |hs|
      ensures StillArmed(hs', p, i, f, generation) <==> StillArmed(hs, p, i, f, generation)
    {
      assert hs'[i] == hs[i];
      assert forall k | 0 <= k < |hs| :: hs'[k] == hs[k];
    }
    if Busy(hs, p, f, generation) {
      var i :| 0 <= i < |hs| && StillArmed(hs, p, i, f, generation);
      assert StillArmed(hs', p, i, f, generation);
    }
    if h.frame == f && h.generation == generation {
      assert StillArmed(hs', p, |hs|, f, generation);
    }
    if Busy(hs', p, f, generation) {
      var i :| 0 <= i < |hs'| && StillArmed(hs', p, i, f, generation);
      assert i < |hs| ==> StillArmed(hs, p, i, f, generation);
    }
  }

  /** The present of the last image disarms the slot with the number of the image. */
  lemma {:induction false} BusyPresented(hs: seq<Handed>, p: nat, f: nat, generation: nat)
    requires |hs| == p + 1
    ensures Busy(hs, p + 1, f, generation) <==> Busy(hs, p, f, generation) && hs[p].image != f
  {
    forall i | 0 <= i < |hs|
      ensures StillArmed(hs, p + 1, i, f, generation)
              <==> StillArmed(hs, p, i, f, generation) && hs[p].image != f
    {
    }
    if Busy(hs, p + 1, f, generation) {
      var i :| 0 <= i < |hs| && StillArmed(hs, p + 1, i, f, generation);
      assert StillArmed(hs, p, i, f, generation);
    }
    if Busy(hs, p, f, generation) && hs[p].image != f {
      var i :| 0 <= i < |hs| && StillArmed(hs, p, i, f, generation);
      assert StillArmed(hs, p + 1, i, f, generation);
    }
  }

  /** The slots of a new swapchain are free. */
  lemma {:induction false} BusyRenewed(hs: seq<Handed>, p: nat, f: nat, generation: nat)
    requires NotLater(hs, generation)
    ensures !Busy(hs, p, f, generation + 1)
  {
  }

  /** Presents of later images do not change what was known of an acquire. */
  lemma {:induction false} BusySettled(hs: seq<Handed>, p: nat, q: nat, f: nat, generation: nat)
    requires |hs| <= p <= q
    ensures Busy(hs, p, f, generation) <==> Busy(hs, q, f, generation)
  {
    forall i | 0 <= i < |hs|
      ensures StillArmed(hs, p, i, f, generation) <==> StillArmed(hs, q, i, f, generation)
    {
    }
    if Busy(hs, p, f, generation) {
      var i :| 0 <= i < |hs| && StillArmed(hs, p, i, f, generation);
      assert StillArmed(hs, q, i, f, generation);
    }
    if Busy(hs, q, f, generation) {
      var i :| 0 <= i < |hs| && StillArmed(hs, q, i, f, generation);
      assert StillArmed(hs, p, i, f, generation);
    }
  }

  lemma {:induction false} FreePresented(hs: seq<Handed>, p: nat)
    requires |hs| == p + 1 && AllFreeOk(hs, p)
    ensures AllFreeOk(hs, p + 1)
  {
    var q := p + 1;
    forall j | 0 <= j < |hs| ensures FreeOk(hs, q, j) {
      assert FreeOk(hs, p, j);
      BusySettled(hs[..j], p, q, hs[j].frame, hs[j].generation);
    }
  }

  lemma {:induction false} FreeHanded(hs: seq<Handed>, p: nat, h: Handed)
    requires AllFreeOk(hs, p)
    requires h.free <==> !Busy(hs, p, h.frame, h.generation)
    ensures AllFreeOk(hs + [h], p)
  {
    var hs' := hs + [h];
    forall j | 0 <= j < |hs'| ensures FreeOk(hs', p, j) {
      if j < |hs| {
        assert FreeOk(hs, p, j) && hs'[..j] == hs[..j];
      } else {
        assert hs'[..j] == hs;
      }
    }
  }

  /** As long as everything handed out is matched and presented, every semaphore is free. */
  lemma {:induction false} MatchedFree(hs: seq<Handed>, p: nat, j: nat)
    requires j < |hs| && j <= p && AllMatched(hs[..j]) && FreeOk(hs, p, j)
    ensures hs[j].free
  {
    var before := hs[..j];
    forall i | 0 <= i < |before| ensures !StillArmed(before, p, i, hs[j].frame, hs[j].generation) {
      assert Matched(before[i]);
    }
  }

  /** Nothing is disarmed once presenting is off: a slot that was used since then is not free
      when it comes round again. */
  lemma {:induction false} UnpresentedBusy(hs: seq<Handed>, p: nat, i: nat, j: nat)
    requires p <= i < j < |hs| && FreeOk(hs, p, j)
    requires hs[i].frame == hs[j].frame && hs[i].generation == hs[j].generation
    ensures !hs[j].free
  {
    assert StillArmed(hs[..j], p, i, hs[j].frame, hs[j].generation);
  }

  // ---------------------------------------------------------------- wait lists

  /** The acquires whose semaphores stand in the wait list of slot `f` after `n` frames: those
      of slot `f` since an image `f` was last taken off the queue. */
  function Filling(hs: seq<Handed>, f: nat, n: nat): (r: seq<nat>)
    requires n <= |hs|
    ensures forall k | 0 <= k < |r| :: r[k] < n
    ensures forall k, l | 0 <= k < l < |r| :: r[k] < r[l]
  {
    if n == 0 || hs[n - 1].image == f then []
    else Filling(hs, f, n - 1) + (if hs[n - 1].frame == f then [n - 1] else [])
  }

  /** And the outstanding image, if any. */
  function FillingNow(hs: seq<Handed>, f: nat, n: nat): (r: seq<nat>)
    requires n <= |hs|
    ensures forall k | 0 <= k < |r| :: r[k] < |hs| && r[k] <= n
    ensures forall k, l | 0 <= k < l < |r| :: r[k] < r[l]
  {
    Filling(hs, f, n) + (if n < |hs| && hs[n].frame == f then [n] else [])
  }

  function Names(hs: seq<Handed>, at: seq<nat>): (r: seq<nat>)
    requires forall k | 0 <= k < |at| :: at[k] < |hs|
    ensures |r| == |at| && forall k | 0 <= k < |r| :: r[k] == hs[at[k]].semaphore
  {
    seq(|at|, k requires 0 <= k < |at| => hs[at[k]].semaphore)
  }

  /** The wait list of slot `f` when `n` images have been taken off the queue. */
  function ListOf(hs: seq<Handed>, f: nat, n: nat): seq<nat>
    requires n <= |hs|
  {
    Names(hs, FillingNow(hs, f, n))
  }

  lemma {:induction false} FillingPrefix(hs: seq<Handed>, h: Handed, f: nat, n: nat)
    requires n <= |hs|
    ensures Filling(hs + [h], f, n) == Filling(hs, f, n)
  {
    if n > 0 {
      FillingPrefix(hs, h, f, n - 1);
      assert (hs + [h])[n - 1] == hs[n - 1];
    }
  }

  /** One more acquire extends the list of its slot. */
  lemma {:induction false} ListHanded(hs: seq<Handed>, h: Handed, f: nat)
    ensures ListOf(hs + [h], f, |hs|) == ListOf(hs, f, |hs|) + (if h.frame == f then [h.semaphore] else [])
  {
    FillingPrefix(hs, h, f, |hs|);
  }

  /** Taking the outstanding image off the queue empties the list with the number of the
      image. */
  lemma {:induction false} ListConsumed(hs: seq<Handed>, f: nat, c: nat)
    requires |hs| == c + 1
    ensures ListOf(hs, f, c + 1) == if hs[c].image == f then [] else ListOf(hs, f, c)
  {
  }

  /** Later acquires do not change what a list was. */
  lemma {:induction false} ListSettled(hs: seq<Handed>, h: Handed, f: nat, n: nat)
    requires n < |hs|
    ensures ListOf(hs + [h], f, n) == ListOf(hs, f, n)
  {
    FillingPrefix(hs, h, f, n);
  }

  lemma {:induction false} FillingFrames(hs: seq<Handed>, f: nat, n: nat)
    requires n <= |hs|
    ensures forall k | 0 <= k < |Filling(hs, f, n)| :: hs[Filling(hs, f, n)[k]].frame == f
  {
    if n > 0 && hs[n - 1].image != f {
      FillingFrames(hs, f, n - 1);
    }
  }

  /** The slots that were never used have empty lists, and a list holds semaphores of its own
      slot only. */
  lemma {:induction false} ListFrames(hs: seq<Handed>, f: nat, n: nat)
    requires n <= |hs|
    ensures forall k | 0 <= k < |FillingNow(hs, f, n)| :: hs[FillingNow(hs, f, n)[k]].frame == f
    ensures forall w | w in ListOf(hs, f, n) :: exists i :: 0 <= i < |hs| && hs[i].frame == f && hs[i].semaphore == w
  {
    FillingFrames(hs, f, n);
    forall w | w in ListOf(hs, f, n) ensures exists i :: 0 <= i < |hs| && hs[i].frame == f && hs[i].semaphore == w {
      var k :| 0 <= k < |ListOf(hs, f, n)| && ListOf(hs, f, n)[k] == w;
      var i := FillingNow(hs, f, n)[k];
      assert hs[i].frame == f && hs[i].semaphore == w;
    }
  }

  lemma {:induction false} ListUnused(hs: seq<Handed>, f: nat, n: nat)
    requires n <= |hs| && forall j | 0 <= j < |hs| :: hs[j].frame != f
    ensures ListOf(hs, f, n) == [] && Filling(hs, f, n) == []
  {
    if n > 0 && hs[n - 1].image != f {
      ListUnused(hs, f, n - 1);
    }
  }

  lemma {:induction false} FillingExactly(hs: seq<Handed>, f: nat, n: nat, i: nat)
    requires n <= |hs|
    ensures i in Filling(hs, f, n) <==>
      i < n && hs[i].frame == f && forall k | i <= k < n :: hs[k].image != f
  {
    if n > 0 {
      FillingExactly(hs, f, n - 1, i);
    }
  }

  /** Acquire `i` fills the list that present `j` waits on. */
  predicate Fills(hs: seq<Handed>, i: nat, j: nat)
    requires j < |hs|
  {
    i <= j && hs[i].frame == hs[j].image && forall k | i <= k < j :: hs[k].image != hs[j].image
  }

  lemma {:induction false} FillsExactly(hs: seq<Handed>, i: nat, j: nat)
    requires j < |hs|
    ensures i in FillingNow(hs, hs[j].image, j) <==> Fills(hs, i, j)
  {
    FillingExactly(hs, hs[j].image, j, i);
  }

  /** Every present waited for the list of its image, and every semaphore in it had a pending
      signal. */
  predicate WaitsOk(ps: seq<PresentCall>, hs: seq<Handed>)
    requires |ps| <= |hs|
  {
    forall j | 0 <= j < |ps| :: ps[j].waits == ListOf(hs, hs[j].image, j) && ps[j].ready
  }

  lemma {:induction false} WaitsHanded(ps: seq<PresentCall>, hs: seq<Handed>, h: Handed)
    requires |ps| <= |hs| && WaitsOk(ps, hs)
    ensures WaitsOk(ps, hs + [h])
  {
    forall j | 0 <= j < |ps| ensures ps[j].waits == ListOf(hs + [h], (hs + [h])[j].image, j) {
      ListSettled(hs, h, hs[j].image, j);
    }
  }

  lemma {:induction false} WaitsPresented(ps: seq<PresentCall>, hs: seq<Handed>, p: PresentCall)
    requires |ps| < |hs| && WaitsOk(ps, hs)
    requires p.waits == ListOf(hs, hs[|ps|].image, |ps|) && p.ready
    ensures WaitsOk(ps + [p], hs)
  {
  }

  predicate SameName(hs: seq<Handed>, i: nat, j: nat)
    requires i < |hs| && j < |hs|
  {
    hs[i].semaphore == hs[j].semaphore
  }

  predicate SameSlot(hs: seq<Handed>, i: nat, j: nat)
    requires i < |hs| && j < |hs|
  {
    hs[i].frame == hs[j].frame && hs[i].generation == hs[j].generation
  }

  /** A semaphore belongs to one slot of one swapchain. */
  predicate NamesApart(hs: seq<Handed>) {
    forall i, j | 0 <= i < |hs| && 0 <= j < |hs| :: SameName(hs, i, j) <==> SameSlot(hs, i, j)
  }

  predicate Once(s: seq<nat>) {
    forall k, l | 0 <= k < l < |s| :: s[k] != s[l]
  }

  /** A present waits for no semaphore twice if and only if the acquires that filled its list
      were all given free semaphores. */
  lemma {:induction false} OnceExactly(hs: seq<Handed>, p: nat, j: nat)
    requires j < p && j < |hs| && NamesApart(hs) && AllFreeOk(hs, p)
    ensures Once(ListOf(hs, hs[j].image, j)) <==> forall i | 0 <= i <= j && Fills(hs, i, j) :: hs[i].free
  {
    var f := hs[j].image;
    var at, list := FillingNow(hs, f, j), ListOf(hs, f, j);
    if !Once(list) {
      var k, l :| 0 <= k < l < |list| && list[k] == list[l];
      TwiceNotFree(hs, p, j, at[k], at[l]);
    }
    if i :| 0 <= i <= j && Fills(hs, i, j) && !hs[i].free {
      var e := NotFreeTwice(hs, p, j, i);
      FillsExactly(hs, e, j);
      FillsExactly(hs, i, j);
      var k :| 0 <= k < |at| && at[k] == e;
      var l :| 0 <= l < |at| && at[l] == i;
      assert list[k] == list[l] && k != l;
    }
  }

  /** If two acquires filled the list with one semaphore, the later one was not free. */
  lemma {:induction false} TwiceNotFree(hs: seq<Handed>, p: nat, j: nat, e: nat, i: nat)
    requires j < p && j < |hs| && NamesApart(hs) && AllFreeOk(hs, p)
    requires e < i && e in FillingNow(hs, hs[j].image, j) && i in FillingNow(hs, hs[j].image, j)
    requires hs[e].semaphore == hs[i].semaphore
    ensures i <= j && Fills(hs, i, j) && !hs[i].free
  {
    FillsExactly(hs, e, j);
    FillsExactly(hs, i, j);
    assert FreeOk(hs, p, i) && SameName(hs, e, i);
    FreeExactly(hs, p, i);
    assert ArmedUntil(hs, p, e, i);
  }

  /** If an acquire that filled the list was not free, an earlier one filled it with the same
      semaphore. */
  lemma {:induction false} NotFreeTwice(hs: seq<Handed>, p: nat, j: nat, i: nat) returns (e: nat)
    requires j < p && j < |hs| && NamesApart(hs) && AllFreeOk(hs, p)
    requires i <= j && Fills(hs, i, j) && !hs[i].free
    ensures e < i && Fills(hs, e, j) && hs[e].semaphore == hs[i].semaphore
  {
    assert FreeOk(hs, p, i);
    FreeExactly(hs, p, i);
    e :| 0 <= e < i && ArmedUntil(hs, p, e, i);
    assert SameSlot(hs, e, i) && SameName(hs, e, i);
  }

  /** While presenting is on, a pending semaphore stands in the list of its slot. */
  lemma {:induction false} BusyListed(hs: seq<Handed>, p: nat, f: nat, generation: nat) returns (e: nat)
    requires p < |hs| && |hs| == p + 1 && Busy(hs, p, f, generation)
    ensures e < |hs| && hs[e].frame == f && hs[e].generation == generation
    ensures hs[e].semaphore in ListOf(hs, f, p)
  {
    e :| 0 <= e < |hs| && StillArmed(hs, p, e, f, generation);
    FillingExactly(hs, f, p, e);
    var at := FillingNow(hs, f, p);
    assert e in at;
    var k :| 0 <= k < |at| && at[k] == e;
    assert ListOf(hs, f, p)[k] == hs[e].semaphore;
  }

  lemma {:induction false} MatchedFilling(hs: seq<Handed>, f: nat, n: nat)
    requires n <= |hs| && AllMatched(hs[..n])
    ensures Filling(hs, f, n) == []
  {
    if n > 0 {
      var m := n - 1;
      assert Matched(hs[..n][m]);
      assert hs[..n] == hs[..m] + [hs[m]];
      forall j | 0 <= j < m ensures Matched(hs[..m][j]) {
        assert Matched(hs[..n][j]);
      }
      MatchedFilling(hs, f, m);
    }
  }

  /** In a matched run only the outstanding image is waited for. */
  lemma {:induction false} MatchedList(hs: seq<Handed>, f: nat, n: nat)
    requires n <= |hs| && AllMatched(hs[..n])
    ensures ListOf(hs, f, n) == if n < |hs| && hs[n].frame == f then [hs[n].semaphore] else []
  {
    MatchedFilling(hs, f, n);
  }

  /** One present, after matched ones, is paired exactly if its image is matched. */
  lemma {:induction false} PairedOne(ps: seq<PresentCall>, hs: seq<Handed>, n: nat)
    requires n < |ps| <= |hs| && WaitsOk(ps, hs) && AllMatched(hs[..n])
    ensures Paired(ps[n], hs[n]) <==> Matched(hs[n])
  {
    MatchedList(hs, hs[n].image, n);
  }

  lemma {:induction false} PairedFrom(ps: seq<PresentCall>, hs: seq<Handed>)
    requires |ps| <= |hs| && WaitsOk(ps, hs) && AllMatched(hs[..|ps|])
    ensures AllPaired(ps, hs)
  {
    forall j | 0 <= j < |ps| ensures Paired(ps[j], hs[j]) {
      assert Matched(hs[..|ps|][j]);
      forall k | 0 <= k < j ensures Matched(hs[..j][k]) {
        assert Matched(hs[..|ps|][k]);
      }
      PairedOne(ps, hs, j);
    }
  }

  lemma {:induction false} MatchedFrom(ps: seq<PresentCall>, hs: seq<Handed>, n: nat)
    requires n <= |ps| <= |hs| && WaitsOk(ps, hs) && AllPaired(ps, hs)
    ensures AllMatched(hs[..n])
  {
    if n > 0 {
      MatchedFrom(ps, hs, n - 1);
      PairedOne(ps, hs, n - 1);
      assert hs[..n] == hs[..n - 1] + [hs[n - 1]];
    }
  }

  /** Each present waited for exactly the semaphore of its own image if and only if every image
      presented had the number of its slot. */
  lemma {:induction false} PairedExactly(ps: seq<PresentCall>, hs: seq<Handed>)
    requires |ps| <= |hs| && WaitsOk(ps, hs)
    ensures AllPaired(ps, hs) <==> AllMatched(hs[..|ps|])
  {
    if AllMatched(hs[..|ps|]) {
      PairedFrom(ps, hs);
    }
    if AllPaired(ps, hs) {
      MatchedFrom(ps, hs, |ps|);
    }
  }

  // ---------------------------------------------------------------- slots in turn

  /** The slot of acquire `j` among `count` slots. */
  function RoundRobin(j: nat, count: nat): (r: nat)
    requires count > 0
    ensures r < count
  {
    if j == 0 then 0
    else
      var before := RoundRobin(j - 1, count);
      if before + 1 == count then 0 else before + 1
  }

  lemma {:induction false} NextInTurn(f: nat, count: nat)
    requires f < count
    ensures (f + 1) % count == if f + 1 == count then 0 else f + 1
  {
  }

  lemma {:induction false} RoundRobinOfThree(j: nat)
    ensures RoundRobin(j, 3) == j % 3
  {
    if j > 0 {
      RoundRobinOfThree(j - 1);
    }
  }

  function ImagesOf(oracle: Oracle, n: nat): nat {
    oracle.images(n)
  }

  /** All swapchains have the same number of images. */
  ghost predicate Steady(oracle: Oracle) {
    forall n :: ImagesOf(oracle, n) == ImagesOf(oracle, 0)
  }

  /** Then the answers are the oracle's, and the slots are used in turn, across failed acquires
      and recreations. */
  ghost predicate Rotating(oracle: Oracle, count: nat, answers: seq<AcquireResult>, hs: seq<Handed>, frame: nat) {
    Steady(oracle) ==>
      && count == Grown(0, oracle.images(0))
      && (forall i | 0 <= i < |answers| :: answers[i] == Fit(oracle.acquire(i), count))
      && frame == RoundRobin(|hs|, count)
      && (forall j | 0 <= j < |hs| :: hs[j].frame == RoundRobin(j, count))
  }

  lemma {:induction false} RotatingRenewed(oracle: Oracle, count: nat, count': nat, answers: seq<AcquireResult>, hs: seq<Handed>,
                        frame: nat, n: nat)
    requires Rotating(oracle, count, answers, hs, frame)
    requires count' == Grown(count, oracle.images(n))
    ensures Rotating(oracle, count', answers, hs, frame)
  {
    if Steady(oracle) {
      assert ImagesOf(oracle, n) == ImagesOf(oracle, 0);
    }
  }

  lemma {:induction false} RotatingFailed(oracle: Oracle, count: nat, answers: seq<AcquireResult>, hs: seq<Handed>, frame: nat)
    requires count > 0 && Rotating(oracle, count, answers, hs, frame)
    ensures Rotating(oracle, count, answers + [Fit(oracle.acquire(|answers|), count)], hs, frame)
  {
  }

  lemma {:induction false} RotatingHanded(oracle: Oracle, count: nat, answers: seq<AcquireResult>, hs: seq<Handed>, frame: nat, h: Handed)
    requires frame < count && Rotating(oracle, count, answers, hs, frame) && h.frame == frame
    ensures Rotating(oracle, count, answers + [Fit(oracle.acquire(|answers|), count)], hs + [h], (frame + 1) % count)
  {
    NextInTurn(frame, count);
  }
}
